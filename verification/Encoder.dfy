/** What the rules see of a file packed by a commercial encoder
    (internal/antivirus/encoder.go). */
module Encoder {
  import opened Wrappers

  type Bytes = string

  const HEAD_WINDOW := 1024
  const BINARY_RUN := 48
  const B64_WINDOW := 256
  const B64_RATIO := 96
  const INJECT_HINT := 5
  const INJECT_SPAN := 160

  const STAMPS: seq<(Bytes, string)> := [
    ("//ICB0", "ionCube"), ("ionCube Loader", "ionCube"), ("SourceGuardian", "SourceGuardian"),
    ("sg_load", "SourceGuardian"), ("@Zend;", "ZendGuard")]

  const SINKS: seq<Bytes> := [
    "<?php", "<?=", "eval(", "assert(", "system(", "passthru(", "shell_exec(", "exec(", "proc_open(", "popen(",
    "base64_decode(", "gzinflate(", "gzuncompress(", "str_rot13(", "create_function(", "call_user_func(",
    "preg_replace(", "$_GET[", "$_POST[", "$_REQUEST[", "$_COOKIE[", "$_SERVER[", "file_put_contents("]

  predicate NonText(c: char) {
    c != '\t' && c != '\n' && c != '\r' && (c as int < 32 || c as int > 126)
  }

  predicate Base64(c: char) {
    'A' <= c <= 'Z' || 'a' <= c <= 'z' || '0' <= c <= '9' || c == '+' || c == '/' || c == '='
  }

  predicate Syntax(c: char) {
    c in " $();'\"\n\t[]{}<>.,!-"
  }

  predicate OccursAt(data: Bytes, word: Bytes, i: nat) {
    i + |word| <= |data| && data[i..i + |word|] == word
  }

  // ------------------------------------------------------ where a body begins

  /** The name of the first stamp, in the order of the table, that occurs in the head. */
  function StampFrom(head: Bytes, k: nat): string
    decreases |STAMPS| - k
  {
    if k >= |STAMPS| then ""
    else if exists i :: 0 <= i <= |head| && OccursAt(head, STAMPS[k].0, i) then STAMPS[k].1
    else StampFrom(head, k + 1)
  }

  function StampName(content: Bytes): string {
    StampFrom(if |content| > HEAD_WINDOW then content[..HEAD_WINDOW] else content, 0)
  }

  /** The k-th stamp stands somewhere in the head of the file. */
  predicate Stamped(content: Bytes, k: nat)
    requires k < |STAMPS|
  {
    exists i :: 0 <= i && i + |STAMPS[k].0| <= |content| && i + |STAMPS[k].0| <= HEAD_WINDOW
                && OccursAt(content, STAMPS[k].0, i)
  }

  lemma SliceOfHead(content: Bytes, n: nat, from: nat, to: nat)
    requires from <= to <= n <= |content|
    ensures content[..n][from..to] == content[from..to]
  {}

  lemma InHead(content: Bytes, head: Bytes, k: nat)
    requires k < |STAMPS| && head == if |content| > HEAD_WINDOW then content[..HEAD_WINDOW] else content
    ensures Stamped(content, k) <==> exists i :: 0 <= i <= |head| && OccursAt(head, STAMPS[k].0, i)
  {
    var word := STAMPS[k].0;
    forall i: nat | i + |word| <= |head|
      ensures OccursAt(head, word, i) <==> OccursAt(content, word, i)
    {
      SliceOfHead(content, |head|, i, i + |word|);
    }
    if i :| 0 <= i && i + |word| <= |content| && i + |word| <= HEAD_WINDOW && OccursAt(content, word, i) {
      assert OccursAt(head, word, i);
    }
  }

  lemma {:induction false} StampFromIs(content: Bytes, head: Bytes, k: nat, n: nat)
    requires k <= n < |STAMPS| && head == if |content| > HEAD_WINDOW then content[..HEAD_WINDOW] else content
    requires Stamped(content, n) && forall j :: k <= j < n ==> !Stamped(content, j)
    ensures StampFrom(head, k) == STAMPS[n].1
    decreases n - k
  {
    InHead(content, head, k);
    if k < n {
      StampFromIs(content, head, k + 1, n);
    }
  }

  lemma {:induction false} NoStamp(content: Bytes, head: Bytes, k: nat)
    requires k <= |STAMPS| && head == if |content| > HEAD_WINDOW then content[..HEAD_WINDOW] else content
    requires forall j :: k <= j < |STAMPS| ==> !Stamped(content, j)
    ensures StampFrom(head, k) == ""
    decreases |STAMPS| - k
  {
    if k < |STAMPS| {
      InHead(content, head, k);
      NoStamp(content, head, k + 1);
    }
  }

  /** A PACKED FILE IS NAMED by the first stamp of the table that stands in its first
      HEAD_WINDOW bytes, and by none exactly when none does. */
  lemma StampNameIs(content: Bytes, n: nat)
    requires n <= |STAMPS| && (n < |STAMPS| ==> Stamped(content, n)) && forall j :: 0 <= j < n ==> !Stamped(content, j)
    ensures StampName(content) == if n < |STAMPS| then STAMPS[n].1 else ""
  {
    var head := if |content| > HEAD_WINDOW then content[..HEAD_WINDOW] else content;
    if n < |STAMPS| {
      StampFromIs(content, head, 0, n);
    } else {
      NoStamp(content, head, 0);
    }
  }

  predicate BinaryRunAt(content: Bytes, s: nat) {
    s + BINARY_RUN <= |content| && forall i :: s <= i < s + BINARY_RUN ==> NonText(content[i])
  }

  /** The start of the first run of BINARY_RUN binary bytes. */
  predicate IsBinaryBodyStart(content: Bytes, start: Option<nat>) {
    match start
    case None => forall s :: 0 <= s < |content| ==> !BinaryRunAt(content, s)
    case Some(s) => BinaryRunAt(content, s) && forall t :: 0 <= t < s ==> !BinaryRunAt(content, t)
  }

  method BinaryBodyStart(content: Bytes) returns (start: Option<nat>)
    ensures IsBinaryBodyStart(content, start)
  {
    var run := 0;
    for i := 0 to |content|
      invariant 0 <= run < BINARY_RUN && run <= i
      invariant forall k :: i - run <= k < i ==> NonText(content[k])
      invariant run < i ==> !NonText(content[i - run - 1])
      invariant forall s :: 0 <= s && s + BINARY_RUN <= i ==> !BinaryRunAt(content, s)
    {
      if NonText(content[i]) {
        run := run + 1;
        if run >= BINARY_RUN {
          return Some(i - run + 1);
        }
        continue;
      }
      assert i + 1 >= BINARY_RUN ==> !BinaryRunAt(content, i + 1 - BINARY_RUN);
      run := 0;
    }
    return None;
  }

  function CountBase64(window: Bytes): (n: nat)
    ensures n <= |window|
  {
    if window == "" then 0
    else CountBase64(window[..|window| - 1]) + if Base64(window[|window| - 1]) then 1 else 0
  }

  /** The window of B64_WINDOW bytes at `i` crosses the density. */
  predicate Dense(content: Bytes, i: nat) {
    i + B64_WINDOW <= |content| && CountBase64(content[i..i + B64_WINDOW]) * 100 / B64_WINDOW >= B64_RATIO
  }

  predicate FirstDense(content: Bytes, i: nat) {
    i % B64_WINDOW == 0 && Dense(content, i) && forall j :: 0 <= j < i && j % B64_WINDOW == 0 ==> !Dense(content, j)
  }

  /** `s` is where the base64 run that reaches up to `i` begins. */
  predicate RunBegins(content: Bytes, s: nat, i: nat) {
    s <= i <= |content| && (forall k :: s <= k < i ==> Base64(content[k])) && (s == 0 || !Base64(content[s - 1]))
  }

  ghost predicate IsBase64BodyStart(content: Bytes, start: Option<nat>) {
    match start
    case None => forall i :: 0 <= i < |content| && i % B64_WINDOW == 0 ==> !Dense(content, i)
    case Some(s) => exists i :: FirstDense(content, i) && RunBegins(content, s, i)
  }

  method Base64BodyStart(content: Bytes) returns (start: Option<nat>)
    ensures IsBase64BodyStart(content, start)
  {
    var i := 0;
    while i + B64_WINDOW <= |content|
      invariant 0 <= i && i % B64_WINDOW == 0
      invariant forall j :: 0 <= j < i && j % B64_WINDOW == 0 ==> !Dense(content, j)
      decreases |content| - i
    {
      var window := content[i..i + B64_WINDOW];
      var count := 0;
      for k := 0 to |window|
        invariant count == CountBase64(window[..k])
      {
        assert window[..k + 1][..k] == window[..k];
        if Base64(window[k]) {
          count := count + 1;
        }
      }
      assert window[..|window|] == window;
      if count * 100 / |window| >= B64_RATIO {
        var s := i;
        while s > 0 && Base64(content[s - 1])
          invariant 0 <= s <= i
          invariant forall k :: s <= k < i ==> Base64(content[k])
        {
          s := s - 1;
        }
        assert FirstDense(content, i) && RunBegins(content, s, i);
        return Some(s);
      }
      assert forall j :: i < j < i + B64_WINDOW ==> j % B64_WINDOW != 0;
      i := i + B64_WINDOW;
    }
    return None;
  }

  lemma {:induction false} AllBase64Count(window: Bytes)
    requires forall k :: 0 <= k < |window| ==> Base64(window[k])
    ensures CountBase64(window) == |window|
  {
    if window != "" {
      AllBase64Count(window[..|window| - 1]);
    }
  }

  /** A base64 stretch of 511 bytes contains an aligned window wherever it lies, so
      the body is found, at that stretch or before it. */
  lemma LongStretchIsFound(content: Bytes, from: nat, start: Option<nat>)
    requires from + 2 * B64_WINDOW - 1 <= |content|
    requires forall k :: from <= k < from + 2 * B64_WINDOW - 1 ==> Base64(content[k])
    requires IsBase64BodyStart(content, start)
    ensures start.Some? && start.value <= from
  {
    var i := (from + B64_WINDOW - 1) / B64_WINDOW * B64_WINDOW;
    assert i % B64_WINDOW == 0 && from <= i < from + B64_WINDOW;
    var window := content[i..i + B64_WINDOW];
    AllBase64Count(window);
    assert Dense(content, i);
    if start.Some? {
      var j: nat :| FirstDense(content, j) && RunBegins(content, start.value, j);
      assert j <= i;
    }
  }

  // ------------------------------------------------- injected code in the body

  /** The last character of the word occurs nowhere else in it, or its first does not:
      either way no proper prefix of the word is a suffix of it. */
  predicate Borderless(word: Bytes) {
    |word| > 0 &&
    ((forall k :: 0 <= k < |word| - 1 ==> word[k] != word[|word| - 1])
     || (forall k :: 0 < k < |word| ==> word[k] != word[0]))
  }

  lemma SinksAreBorderless(k: nat)
    requires k < |SINKS|
    ensures Borderless(SINKS[k])
  {
    if k < 12 {
      EarlySinks(k);
    } else {
      LateSinks(k);
    }
  }

  lemma EarlySinks(k: nat)
    requires k < 12
    ensures Borderless(SINKS[k])
  {
    assert Borderless("<?php");
    assert Borderless("<?=");
    assert Borderless("eval(");
    assert Borderless("assert(");
    assert Borderless("system(");
    assert Borderless("passthru(");
    assert Borderless("shell_exec(");
    assert Borderless("exec(");
    assert Borderless("proc_open(");
    assert Borderless("popen(");
    assert Borderless("base64_decode(");
    assert Borderless("gzinflate(");
  }

  lemma LateSinks(k: nat)
    requires 12 <= k < |SINKS|
    ensures Borderless(SINKS[k])
  {
    assert Borderless("gzuncompress(");
    assert Borderless("str_rot13(");
    assert Borderless("create_function(");
    assert Borderless("call_user_func(");
    assert Borderless("preg_replace(");
    assert Borderless("$_GET[");
    assert Borderless("$_POST[");
    assert Borderless("$_REQUEST[");
    assert Borderless("$_COOKIE[");
    assert Borderless("$_SERVER[");
    assert Borderless("file_put_contents(");
  }

  /** Two occurrences of a borderless word do not overlap. */
  lemma NoOverlap(data: Bytes, word: Bytes, p: nat, q: nat)
    requires Borderless(word) && OccursAt(data, word, p) && p < q < p + |word|
    ensures !OccursAt(data, word, q)
  {
    var last := p + |word| - 1;
    assert data[p..p + |word|][q - p] == data[q] && data[p..p + |word|][|word| - 1] == data[last];
    if q + |word| <= |data| {
      assert data[q..q + |word|][0] == data[q] && data[q..q + |word|][last - q] == data[last];
    }
  }

  function CountSyntax(part: Bytes): (n: nat)
    ensures n <= |part|
  {
    if part == "" then 0
    else CountSyntax(part[..|part| - 1]) + if Syntax(part[|part| - 1]) then 1 else 0
  }

  function SpanEnd(body: Bytes, at: nat, sink: Bytes): (end: nat)
    requires at + |sink| <= |body|
    ensures at + |sink| <= end <= |body|
  {
    if at + |sink| + INJECT_SPAN < |body| then at + |sink| + INJECT_SPAN else |body|
  }

  /** This sink occurs here, with enough syntax after it to be real code. */
  predicate Accepts(body: Bytes, sink: Bytes, at: nat) {
    OccursAt(body, sink, at) && CountSyntax(body[at..SpanEnd(body, at, sink)]) >= INJECT_HINT
  }

  predicate InjectedAt(body: Bytes, at: nat) {
    exists k :: 0 <= k < |SINKS| && Accepts(body, SINKS[k], at)
  }

  /** bytes.Index from an offset. */
  method Index(data: Bytes, word: Bytes, from: nat) returns (at: Option<nat>)
    requires from <= |data|
    ensures at.Some? ==> from <= at.value && OccursAt(data, word, at.value)
    ensures at.Some? ==> forall j :: from <= j < at.value ==> !OccursAt(data, word, j)
    ensures at == None ==> forall j :: from <= j ==> !OccursAt(data, word, j)
  {
    var i := from;
    while i + |word| <= |data|
      invariant forall j :: from <= j < i ==> !OccursAt(data, word, j)
      decreases |data| - i
    {
      if data[i..i + |word|] == word {
        return Some(i);
      }
      i := i + 1;
    }
    return None;
  }

  method CountHint(part: Bytes) returns (hint: nat)
    ensures hint == CountSyntax(part)
  {
    hint := 0;
    for k := 0 to |part|
      invariant hint == CountSyntax(part[..k])
    {
      assert part[..k + 1][..k] == part[..k];
      if Syntax(part[k]) {
        hint := hint + 1;
      }
    }
    assert part[..|part|] == part;
  }

  /** The first position at which one sink is accepted; a rejected match is skipped
      over whole, which misses nothing because no sink overlaps itself. */
  method FirstAccepted(body: Bytes, sink: Bytes) returns (best: Option<nat>)
    requires Borderless(sink)
    ensures best.Some? ==> Accepts(body, sink, best.value)
    ensures best.Some? ==> forall j :: 0 <= j < best.value ==> !Accepts(body, sink, j)
    ensures best == None ==> forall j: nat :: !Accepts(body, sink, j)
  {
    hide CountSyntax, Borderless;
    var offset := 0;
    while true
      invariant offset <= |body|
      invariant forall j :: 0 <= j < offset ==> !Accepts(body, sink, j)
      decreases |body| - offset
    {
      var found := Index(body, sink, offset);
      if found == None {
        return None;
      }
      var at := found.value;
      var hint := CountHint(body[at..SpanEnd(body, at, sink)]);
      if hint >= INJECT_HINT {
        return Some(at);
      }
      forall j | at < j < at + |sink|
        ensures !Accepts(body, sink, j)
      {
        NoOverlap(body, sink, at, j);
      }
      NotEmpty(sink);
      offset := at + |sink|;
    }
  }

  lemma NotEmpty(word: Bytes)
    requires Borderless(word)
    ensures |word| > 0
  {}

  /** THE EARLIEST REAL CODE. The resume point is the least position of the body at
      which any sink is accepted, and there is none exactly when no sink is accepted
      anywhere. */
  method InjectedCodeAfterBlob(body: Bytes) returns (best: Option<nat>)
    ensures best.Some? ==> InjectedAt(body, best.value) && forall j :: 0 <= j < best.value ==> !InjectedAt(body, j)
    ensures best == None ==> forall j: nat :: !InjectedAt(body, j)
  {
    hide Accepts, Borderless;
    best := None;
    for k := 0 to |SINKS|
      invariant best.Some? ==> exists m :: 0 <= m < k && Accepts(body, SINKS[m], best.value)
      invariant forall m, j: nat :: 0 <= m < k && Accepts(body, SINKS[m], j) ==> best.Some? && best.value <= j
    {
      SinksAreBorderless(k);
      var at := FirstAccepted(body, SINKS[k]);
      if at.Some? && (best == None || at.value < best.value) {
        best := at;
      }
    }
  }

  /** A body of base64 characters alone never resumes: every sink has a byte that
      base64 cannot produce. */
  lemma PureBase64StaysOpaque(body: Bytes, at: nat)
    requires forall k :: 0 <= k < |body| ==> Base64(body[k])
    ensures !InjectedAt(body, at)
  {
    forall k | 0 <= k < |SINKS|
      ensures !Accepts(body, SINKS[k], at)
    {
      var j := SinkHasForeignByte(k);
      assert at + |SINKS[k]| <= |body| ==> body[at..at + |SINKS[k]|][j] == body[at + j];
    }
  }

  lemma SinkHasForeignByte(k: nat) returns (j: nat)
    requires k < |SINKS|
    ensures j < |SINKS[k]| && !Base64(SINKS[k][j])
  {
    j := if k < 2 then 0 else |SINKS[k]| - 1;
  }

  // ---------------------------------------------------------------- extract

  /** The extracted bytes: the preamble, then the code from `resume` on after a
      newline, or nothing. */
  function Seen(content: Bytes, blob: nat, resume: Option<nat>): Bytes
    requires blob <= |content| && (resume.Some? ==> blob <= resume.value <= |content|)
  {
    content[..blob] + if resume.Some? then "\n" + content[resume.value..] else ""
  }

  /** Where the body begins: at a binary run, else at a base64 run. */
  ghost predicate IsBlobStart(content: Bytes, blob: Option<nat>) {
    exists binary :: IsBinaryBodyStart(content, binary) &&
                     if binary.Some? then blob == binary else IsBase64BodyStart(content, blob)
  }

  method BlobStart(content: Bytes) returns (name: string, blob: Option<nat>)
    ensures blob.Some? ==> name == StampName(content) != "" && blob.value <= |content| && IsBlobStart(content, blob)
    ensures blob == None ==> StampName(content) == "" || IsBlobStart(content, None)
  {
    name := StampName(content);
    if name == "" {
      return "", None;
    }
    var binary := BinaryBodyStart(content);
    if binary.Some? {
      return name, binary;
    }
    blob := Base64BodyStart(content);
    assert IsBlobStart(content, blob);
  }

  /** ONE REGION IS HIDDEN. For a packed file the rules see the file with exactly
      one contiguous region, from the body's start to the earliest accepted sink in
      it, replaced by a newline, or cut to the end when there is none. Any other
      file is seen unchanged. */
  method CommercialEncoderExtract(phpish: bool, content: Bytes) returns (scanned: Bytes, name: string, ok: bool)
    ensures ok ==> phpish && name == StampName(content) != ""
    ensures ok ==> exists blob: nat, resume: Option<nat> ::
                     IsBlobStart(content, Some(blob)) && IsResume(content, blob, resume)
                     && scanned == Seen(content, blob, resume)
    ensures !ok ==> !phpish || StampName(content) == "" || IsBlobStart(content, None)
  {
    hide IsBlobStart, StampName, InjectedAt;
    if !phpish {
      return "", "", false;
    }
    var blob;
    name, blob := BlobStart(content);
    if blob == None {
      return "", "", false;
    }
    var start := blob.value;
    scanned := content[..start];
    var injected := InjectedCodeAfterBlob(content[start..]);
    ghost var resume: Option<nat> := None;
    if injected.Some? {
      InjectedInside(content[start..], injected.value);
      resume := Some(start + injected.value);
      scanned := scanned + "\n" + content[start..][injected.value..];
      assert content[start..][injected.value..] == content[start + injected.value..];
    }
    assert IsResume(content, start, resume);
    assert scanned == Seen(content, start, resume);
    ok := true;
  }

  lemma InjectedInside(body: Bytes, at: nat)
    requires InjectedAt(body, at)
    ensures at <= |body|
  {}

  /** The earliest accepted position of the body, counted in the file. */
  ghost predicate IsResume(content: Bytes, blob: nat, resume: Option<nat>) {
    && blob <= |content|
    && match resume
       case None => forall j: nat :: !InjectedAt(content[blob..], j)
       case Some(r) => blob <= r <= |content| && InjectedAt(content[blob..], r - blob)
                       && forall j :: 0 <= j < r - blob ==> !InjectedAt(content[blob..], j)
  }
}
