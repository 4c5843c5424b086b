/** The decode pass: encoded blobs of a PHP file are decoded at bounded depth and
    the behavioural rules are run against each layer (internal/antivirus/decoded.go).

    The decompressors, the rule patterns and the 64-bit content hash are parameters. A
    decompressor gives some bytes and then an end or an error, and is read up to a limit.
    The history fields `weighed` and `kept` say which blobs were run against the rules
    and how many decoded bytes were kept. */
module Decode {
  import opened Blobs
  import opened Rules
  import opened Wrappers

  const MAX_DEPTH := 4
  const MAX_BYTES := 3145728
  const MAX_BLOBS := 12
  const MAX_MATCHES := 8
  const BOMB_RATIO := 200
  const DECODED_PREFIX := "Decoded:"

  /** What a decompressor can be read for. An error comes together with the last bytes
      or only with the call after them. */
  datatype Ending = Ends | FailsWithLast | FailsAfterLast

  datatype Stream = Stream(bytes: Bytes, ending: Ending)

  const NOTHING := Stream("", FailsAfterLast)

  datatype Env = Env(
    ext: string, clear: set<string>, rules: seq<Rule>, phpish: bool,
    gunzip: Bytes -> Stream, unzlib: Bytes -> Stream, deflated: Bytes -> Stream,
    key: Bytes -> nat)

  // -------------------------------------------------------------- one layer

  function FirstN(found: seq<Bytes>, n: nat): seq<Bytes> {
    if |found| <= n then found else found[..n]
  }

  /** Section 2.3.1 of RFC 1952: the two identification bytes. */
  predicate GzipHeader(b: Bytes)
    requires |b| >= 2
  {
    b[0] as int == 0x1f && b[1] as int == 0x8b
  }

  /** Section 2.2 of RFC 1950: method 8, and a header that is a multiple of 31. */
  predicate ZlibHeader(b: Bytes)
    requires |b| >= 2
  {
    b[0] as int % 16 == 8 && (b[0] as int * 256 + b[1] as int) % 31 == 0
  }

  /** Section 3.2.3 of RFC 1951: block type 3 is reserved, and an error. */
  predicate DeflateHeader(b: Bytes)
    requires b != ""
  {
    b[0] as int / 2 % 4 != 3
  }

  /** What separates text from the noise of a stream that never was one. */
  function Head(b: Bytes): Bytes {
    if |b| <= 512 then b else b[..512]
  }

  predicate PrintableChar(c: char) {
    32 <= c as int < 127 || c == '\n' || c == '\r' || c == '\t'
  }

  function CountPrintable(b: Bytes): (n: nat)
    ensures n <= |b|
  {
    if b == "" then 0 else CountPrintable(b[..|b| - 1]) + if PrintableChar(b[|b| - 1]) then 1 else 0
  }

  /** No zero byte in the head, and more than three quarters of it printable. */
  predicate Printable(b: Bytes) {
    && b != ""
    && (forall i :: 0 <= i < |Head(b)| ==> Head(b)[i] != '\0')
    && 4 * CountPrintable(Head(b)) > 3 * |Head(b)|
  }

  /** An attempt: what it gives, and the budget after it. */
  datatype Read = Read(out: Option<Bytes>, left: int)

  /** A reader that stops at `limit` meets no error that lies past it. */
  predicate FailsWithin(produced: Stream, limit: nat) {
    match produced.ending
    case Ends => false
    case FailsWithLast => |produced.bytes| <= limit
    case FailsAfterLast => |produced.bytes| < limit
  }

  /** Reads up to `limit` bytes, charges what was read, and rejects a bomb. */
  function ReadUpTo(produced: Stream, input: nat, limit: nat, left: int): Read {
    if FailsWithin(produced, limit) then Read(None, left)
    else
      var o := if |produced.bytes| <= limit then produced.bytes else produced.bytes[..limit];
      if o == "" then Read(None, left)
      else if |o| > input * BOMB_RATIO then Read(None, left - |o|)
      else Read(Some(o), left - |o|)
  }

  function ReadHeadered(env: Env, b: Bytes, limit: nat, left: int): Read
    requires |b| >= 4
  {
    var gzip := if GzipHeader(b) then ReadUpTo(env.gunzip(b), |b|, limit, left) else Read(None, left);
    if gzip.out.Some? then gzip
    else if ZlibHeader(b) then ReadUpTo(env.unzlib(b), |b|, limit, gzip.left)
    else gzip
  }

  function Inflated(env: Env, b: Bytes, left: int): Read {
    if |b| < 4 || left <= 0 then Read(None, left)
    else
      var headered := ReadHeadered(env, b, left, left);
      if headered.out.Some? then headered
      else
        var raw := ReadUpTo(if DeflateHeader(b) then env.deflated(b) else NOTHING, |b|, left, headered.left);
        if raw.out.Some? && Printable(raw.out.value) then raw else Read(None, raw.left)
  }

  datatype Layer = Layer(left: int, out: seq<Bytes>)

  function Added(l: Layer, b: Bytes): Layer {
    if b == "" || l.left <= 0 then l
    else
      var cut := if |b| > l.left then b[..l.left] else b;
      Layer(l.left - |cut|, l.out + [cut])
  }

  function AddedInflated(env: Env, l: Layer, dec: Bytes): Layer {
    var plain := Added(l, dec);
    var read := Inflated(env, dec, plain.left);
    if read.out.Some? then Layer(read.left, plain.out + [read.out.value]) else plain.(left := read.left)
  }

  function AddedBase64(env: Env, l: Layer, runs: seq<Bytes>): Layer {
    if runs == [] then l
    else
      var before := AddedBase64(env, l, runs[..|runs| - 1]);
      var dec := FromBase64(runs[|runs| - 1]);
      if dec == "" then before else AddedInflated(env, before, dec)
  }

  function AddedHex(env: Env, l: Layer, runs: seq<Bytes>): Layer {
    if runs == [] then l
    else
      var before := AddedHex(env, l, runs[..|runs| - 1]);
      var dec := FromHex(runs[|runs| - 1]);
      if dec == None then before else AddedInflated(env, before, dec.value)
  }

  function Rotated(letter: nat): (r: nat)
    requires letter < 26
    ensures r < 26
  {
    (letter + 13) % 26
  }

  function Rot13Char(c: char): char {
    if 'a' <= c <= 'z' then 'a' + Rotated(c as int - 'a' as int) as char
    else if 'A' <= c <= 'Z' then 'A' + Rotated(c as int - 'A' as int) as char
    else c
  }

  predicate Letter(c: char) {
    'a' <= c <= 'z' || 'A' <= c <= 'Z'
  }

  function Rot13Text(b: Bytes): Bytes {
    seq(|b|, i requires 0 <= i < |b| => Rot13Char(b[i]))
  }

  function Rot13(b: Bytes): Option<Bytes> {
    if exists i :: 0 <= i < |b| && Letter(b[i]) then Some(Rot13Text(b)) else None
  }

  predicate OccursAt(data: Bytes, word: Bytes, i: nat) {
    i + |word| <= |data| && data[i..i + |word|] == word
  }

  predicate Contains(data: Bytes, word: Bytes) {
    exists i :: 0 <= i <= |data| && OccursAt(data, word, i)
  }

  /** The gate in front of the pass. */
  predicate Indicated(content: Bytes) {
    AnyRun(Base64, content) || AnyRun(Hex, content) || Contains(content, "str_rot13")
  }

  function DecodedLayer(env: Env, data: Bytes, left: int): Layer {
    var base64 := AddedBase64(env, Layer(left, []), FirstN(Find(Base64, data), MAX_BLOBS));
    var hex := AddedHex(env, base64, FirstN(Find(Hex, data), MAX_BLOBS));
    if Contains(data, "str_rot13") && Rot13(data).Some? then Added(hex, Rot13(data).value) else hex
  }

  // --------------------------------------------------------------- the walk

  const MAGICS: seq<Bytes> := [
    "\U{89}PNG", "\U{ff}\U{d8}\U{ff}", "GIF8", "%PDF", "wOFF", "wOF2", "RIFF", "BM",
    "\0\0\U{1}\0", "OggS", "ID3", "\U{1a}E\U{df}\U{a3}"]

  predicate LooksLikeAsset(b: Bytes) {
    exists k :: 0 <= k < |MAGICS| && MAGICS[k] <= b
  }

  predicate TooPlain(b: Bytes) {
    |b| < 8 || LooksLikeAsset(b)
  }

  datatype Walk = Walk(left: int, seen: set<nat>, out: seq<Match>, weighed: seq<Bytes>, kept: nat)

  /** A behavioural rule that did not already fire on the file's literal bytes. */
  predicate Eligible(env: Env, h: Rule) {
    h.score >= WEIGHT_MODERATE && h.name !in env.clear && AppliesTo(h, env.ext)
  }

  function DecodedMatch(h: Rule): Match {
    Match(DECODED_PREFIX + h.name, h.score, false, true, false)
  }

  /** Runs the rules from number `i` on one blob, and stops at the cap. */
  function Weigh(env: Env, out: seq<Match>, blob: Bytes, i: nat): (r: (seq<Match>, bool))
    decreases |env.rules| - i
  {
    if i >= |env.rules| then (out, false)
    else if Eligible(env, env.rules[i]) && env.rules[i].pattern(blob) then
      var out' := out + [DecodedMatch(env.rules[i])];
      if |out'| >= MAX_MATCHES then (out', true) else Weigh(env, out', blob, i + 1)
    else Weigh(env, out, blob, i + 1)
  }

  function See(env: Env, w: Walk, blob: Bytes): Walk {
    w.(seen := w.seen + {env.key(blob)}, weighed := w.weighed + [blob])
  }

  function TotalBytes(blobs: seq<Bytes>): nat {
    if blobs == [] then 0 else TotalBytes(blobs[..|blobs| - 1]) + |blobs[|blobs| - 1]|
  }

  function Walked(env: Env, w: Walk, data: Bytes, depth: nat): Walk
    decreases MAX_DEPTH + 1 - depth, 1, 0
  {
    if depth > MAX_DEPTH || w.left <= 0 || |w.out| >= MAX_MATCHES then w
    else
      var layer := DecodedLayer(env, data, w.left);
      WalkedBlobs(env, w.(left := layer.left, kept := w.kept + TotalBytes(layer.out)), layer.out, depth)
  }

  function WalkedBlobs(env: Env, w: Walk, blobs: seq<Bytes>, depth: nat): Walk
    requires depth <= MAX_DEPTH
    decreases MAX_DEPTH + 1 - depth, 0, |blobs|
  {
    if blobs == [] then w
    else if TooPlain(blobs[0]) || env.key(blobs[0]) in w.seen then WalkedBlobs(env, w, blobs[1..], depth)
    else
      var (out, full) := Weigh(env, w.out, blobs[0], 0);
      var weighed := See(env, w, blobs[0]).(out := out);
      if full then weighed
      else WalkedBlobs(env, Walked(env, weighed, blobs[0], depth + 1), blobs[1..], depth)
  }

  function Began(env: Env, content: Bytes): Walk {
    Walk(MAX_BYTES, {env.key(content)}, [], [], 0)
  }

  /** The whole pass before repeated names are removed. */
  function Pass(env: Env, content: Bytes): Walk {
    if env.phpish && Indicated(content) then Walked(env, Began(env, content), content, 1)
    else Began(env, content)
  }

  // ----------------------------------------------------------------- budget

  /** One inflation keeps no more than was left and charges at most twice that:
      the two header formats exclude each other, and raw DEFLATE is one more try. */
  lemma InflatedBounds(env: Env, b: Bytes, left: int)
    ensures var r := Inflated(env, b, left);
            && r.left <= left
            && (left <= 0 ==> r == Read(None, left))
            && (left > 0 ==> r.left >= -left)
            && (r.out.Some? ==> |r.out.value| <= left && |r.out.value| + r.left <= left)
  {
    hide Printable, DeflateHeader;
    if |b| >= 4 && left > 0 {
      HeadersExclude(b);
      hide GzipHeader, ZlibHeader;
    }
  }

  lemma HeadersExclude(b: Bytes)
    requires |b| >= 2
    ensures !(GzipHeader(b) && ZlibHeader(b))
  {}

  predicate LayerInBudget(l: Layer, start: int) {
    TotalBytes(l.out) + l.left <= start && TotalBytes(l.out) <= start && -start <= l.left
  }

  lemma TotalAppend(out: seq<Bytes>, b: Bytes)
    ensures TotalBytes(out + [b]) == TotalBytes(out) + |b|
  {
    assert (out + [b])[..|out|] == out;
  }

  lemma AddedInBudget(l: Layer, b: Bytes, start: int)
    requires LayerInBudget(l, start)
    ensures LayerInBudget(Added(l, b), start)
  {
    if b != "" && l.left > 0 {
      TotalAppend(l.out, if |b| > l.left then b[..l.left] else b);
    }
  }

  lemma AddedInflatedInBudget(env: Env, l: Layer, dec: Bytes, start: int)
    requires LayerInBudget(l, start)
    ensures LayerInBudget(AddedInflated(env, l, dec), start)
  {
    hide Inflated;
    AddedInBudget(l, dec, start);
    var plain := Added(l, dec);
    InflatedBounds(env, dec, plain.left);
    var read := Inflated(env, dec, plain.left);
    if read.out.Some? {
      TotalAppend(plain.out, read.out.value);
    }
  }

  lemma {:induction false} AddedBase64InBudget(env: Env, l: Layer, runs: seq<Bytes>, start: int)
    requires LayerInBudget(l, start)
    ensures LayerInBudget(AddedBase64(env, l, runs), start)
  {
    hide AddedInflated, LayerInBudget;
    if runs != [] {
      var shorter := runs[..|runs| - 1];
      AddedBase64InBudget(env, l, shorter, start);
      AddedInflatedInBudget(env, AddedBase64(env, l, shorter), FromBase64(runs[|runs| - 1]), start);
    }
  }

  lemma {:induction false} AddedHexInBudget(env: Env, l: Layer, runs: seq<Bytes>, start: int)
    requires LayerInBudget(l, start)
    ensures LayerInBudget(AddedHex(env, l, runs), start)
  {
    hide AddedInflated, LayerInBudget;
    if runs != [] {
      var shorter := runs[..|runs| - 1];
      AddedHexInBudget(env, l, shorter, start);
      var dec := FromHex(runs[|runs| - 1]);
      if dec.Some? {
        AddedInflatedInBudget(env, AddedHex(env, l, shorter), dec.value, start);
      }
    }
  }

  lemma LayerKeepsBudget(env: Env, data: Bytes, left: int)
    requires left > 0
    ensures LayerInBudget(DecodedLayer(env, data, left), left)
  {
    hide AddedInflated, LayerInBudget, AddedBase64, AddedHex, Rot13, Contains, Added;
    var empty := Layer(left, []);
    assert LayerInBudget(empty, left) by { EmptyInBudget(left); }
    AddedBase64InBudget(env, empty, FirstN(Find(Base64, data), MAX_BLOBS), left);
    var base64 := AddedBase64(env, empty, FirstN(Find(Base64, data), MAX_BLOBS));
    AddedHexInBudget(env, base64, FirstN(Find(Hex, data), MAX_BLOBS), left);
    var hex := AddedHex(env, base64, FirstN(Find(Hex, data), MAX_BLOBS));
    if Rot13(data).Some? {
      AddedInBudget(hex, Rot13(data).value, left);
    }
  }

  lemma EmptyInBudget(left: int)
    requires left > 0
    ensures LayerInBudget(Layer(left, []), left)
  {}

  // -------------------------------------------------------------- invariant

  predicate InBudget(w: Walk) {
    w.kept + w.left <= MAX_BYTES && w.kept <= MAX_BYTES && -MAX_BYTES <= w.left
  }

  /** What was weighed is what was seen, each content once, and never the original. */
  ghost predicate Tracked(env: Env, original: Bytes, w: Walk) {
    && (forall k :: k in w.seen <==>
          k == env.key(original) || exists i :: 0 <= i < |w.weighed| && env.key(w.weighed[i]) == k)
    && (forall i :: 0 <= i < |w.weighed| ==> env.key(w.weighed[i]) != env.key(original))
    && (forall i, j :: 0 <= i < j < |w.weighed| ==> env.key(w.weighed[i]) != env.key(w.weighed[j]))
  }

  ghost predicate Speaks(env: Env, h: Rule, blob: Bytes) {
    h in env.rules && Eligible(env, h) && h.pattern(blob)
  }

  /** A match comes from an eligible rule and a weighed blob. */
  ghost predicate Sourced(env: Env, weighed: seq<Bytes>, m: Match) {
    exists h, blob :: Speaks(env, h, blob) && blob in weighed && m == DecodedMatch(h)
  }

  ghost predicate Sound(env: Env, w: Walk) {
    forall m :: m in w.out ==> Sourced(env, w.weighed, m)
  }

  /** No rule that fires on a weighed blob is left out before the cap. */
  ghost predicate Heard(env: Env, w: Walk) {
    |w.out| >= MAX_MATCHES
    || forall h, blob :: Speaks(env, h, blob) && blob in w.weighed ==> DecodedMatch(h) in w.out
  }

  /** Nothing short and no media file is weighed. */
  predicate WeighedIsCode(w: Walk) {
    forall i :: 0 <= i < |w.weighed| ==> WorthWeighing(w.weighed[i])
  }

  /** Eight bytes or more, and no signature of a media file in front. */
  predicate WorthWeighing(b: Bytes) {
    |b| >= 8 && forall k :: 0 <= k < |MAGICS| ==> !(MAGICS[k] <= b)
  }

  lemma WorthIff(b: Bytes)
    ensures WorthWeighing(b) <==> !TooPlain(b)
  {}

  ghost predicate WalkInv(env: Env, original: Bytes, w: Walk) {
    InBudget(w) && Tracked(env, original, w) && Sound(env, w) && Heard(env, w) && WeighedIsCode(w)
  }

  predicate Extends(w: Walk, w': Walk) {
    w.out <= w'.out && w.seen <= w'.seen && w.weighed <= w'.weighed
  }

  lemma {:induction false} WeighIs(env: Env, out: seq<Match>, blob: Bytes, i: nat)
    ensures var (r, full) := Weigh(env, out, blob, i);
            && out <= r
            && (forall m :: m in r ==> m in out || exists h :: Speaks(env, h, blob) && m == DecodedMatch(h))
            && (full ==> |r| == if |out| < MAX_MATCHES then MAX_MATCHES else |out| + 1)
            && (!full ==> r == out || |r| < MAX_MATCHES)
            && (!full ==> forall j :: i <= j < |env.rules| && Speaks(env, env.rules[j], blob)
                            ==> DecodedMatch(env.rules[j]) in r)
    decreases |env.rules| - i
  {
    if i < |env.rules| {
      var h := env.rules[i];
      if Eligible(env, h) && h.pattern(blob) {
        assert Speaks(env, h, blob);
        var out' := out + [DecodedMatch(h)];
        if |out'| < MAX_MATCHES {
          WeighIs(env, out', blob, i + 1);
          assert out'[|out|] == DecodedMatch(h);
        }
      } else {
        WeighIs(env, out, blob, i + 1);
      }
    }
  }

  lemma ChargeKeepsInv(env: Env, original: Bytes, w: Walk, data: Bytes)
    requires WalkInv(env, original, w) && w.left > 0
    ensures var layer := DecodedLayer(env, data, w.left);
            WalkInv(env, original, w.(left := layer.left, kept := w.kept + TotalBytes(layer.out)))
  {
    hide DecodedLayer;
    LayerKeepsBudget(env, data, w.left);
  }

  lemma WeighKeepsInv(env: Env, original: Bytes, w: Walk, blob: Bytes)
    requires WalkInv(env, original, w) && env.key(blob) !in w.seen && !TooPlain(blob)
    ensures var (out, full) := Weigh(env, w.out, blob, 0);
            var w' := See(env, w, blob).(out := out);
            WalkInv(env, original, w') && Extends(w, w') && env.key(blob) in w'.seen
  {
    hide Weigh, WorthWeighing, TooPlain;
    WorthIff(blob);
    var (out, full) := Weigh(env, w.out, blob, 0);
    var w' := See(env, w, blob).(out := out);
    WeighIs(env, w.out, blob, 0);
    TrackedAfter(env, original, w, blob);
    forall m | m in w'.out
      ensures Sourced(env, w'.weighed, m)
    {
      if m in w.out {
        var h, b :| Speaks(env, h, b) && b in w.weighed && m == DecodedMatch(h);
        assert b in w'.weighed;
      } else {
        assert blob in w'.weighed;
      }
    }
    if |w'.out| < MAX_MATCHES {
      forall h, b | Speaks(env, h, b) && b in w'.weighed
        ensures DecodedMatch(h) in w'.out
      {
        if b == blob {
          var j :| 0 <= j < |env.rules| && env.rules[j] == h;
          assert Speaks(env, env.rules[j], blob);
        } else {
          assert b in w.weighed;
        }
      }
    }
  }

  lemma TrackedAfter(env: Env, original: Bytes, w: Walk, blob: Bytes)
    requires Tracked(env, original, w) && env.key(blob) !in w.seen
    ensures Tracked(env, original, See(env, w, blob))
  {
    var w' := See(env, w, blob);
    forall k | k in w'.seen
      ensures k == env.key(original) || exists i :: 0 <= i < |w'.weighed| && env.key(w'.weighed[i]) == k
    {
      if k == env.key(blob) {
        assert w'.weighed[|w.weighed|] == blob;
      } else if k != env.key(original) {
        var i :| 0 <= i < |w.weighed| && env.key(w.weighed[i]) == k;
        assert w'.weighed[i] == w.weighed[i];
      }
    }
  }

  /** Most matches a walk from this depth can leave behind. */
  function Cap(depth: nat): int {
    MAX_MATCHES + MAX_DEPTH - depth
  }

  /** The blob is too plain to weigh, or its content was seen. */
  predicate Settled(env: Env, w: Walk, blob: Bytes) {
    TooPlain(blob) || env.key(blob) in w.seen
  }

  lemma {:induction false} WalkedKeepsInv(env: Env, original: Bytes, w: Walk, data: Bytes, depth: nat)
    requires WalkInv(env, original, w) && depth >= 1
    ensures var w' := Walked(env, w, data, depth);
            && WalkInv(env, original, w') && Extends(w, w')
            && (|w'.out| <= |w.out| || (depth <= MAX_DEPTH && |w'.out| <= Cap(depth)))
            && (depth <= MAX_DEPTH && w.left > 0 && |w.out| < MAX_MATCHES && |w'.out| < MAX_MATCHES ==>
                  forall blob :: blob in DecodedLayer(env, data, w.left).out ==> Settled(env, w', blob))
    decreases MAX_DEPTH + 1 - depth, 1, 0
  {
    hide WalkInv, DecodedLayer, TotalBytes, Settled;
    if depth <= MAX_DEPTH && w.left > 0 && |w.out| < MAX_MATCHES {
      var layer := DecodedLayer(env, data, w.left);
      ChargeKeepsInv(env, original, w, data);
      BlobsKeepInv(env, original, w.(left := layer.left, kept := w.kept + TotalBytes(layer.out)), layer.out, depth);
    }
  }

  lemma {:induction false} BlobsKeepInv(env: Env, original: Bytes, w: Walk, blobs: seq<Bytes>, depth: nat)
    requires WalkInv(env, original, w) && 1 <= depth <= MAX_DEPTH && |w.out| < Cap(depth)
    ensures var w' := WalkedBlobs(env, w, blobs, depth);
            && WalkInv(env, original, w') && Extends(w, w') && |w'.out| <= Cap(depth)
            && (|w'.out| < MAX_MATCHES ==> forall blob :: blob in blobs ==> Settled(env, w', blob))
    decreases MAX_DEPTH + 1 - depth, 0, |blobs|
  {
    hide WalkInv, DecodedLayer, TotalBytes, Weigh, TooPlain;
    if blobs != [] {
      var rest := blobs[1..];
      if TooPlain(blobs[0]) || env.key(blobs[0]) in w.seen {
        BlobsKeepInv(env, original, w, rest, depth);
      } else {
        var (out, full) := Weigh(env, w.out, blobs[0], 0);
        var weighed := See(env, w, blobs[0]).(out := out);
        WeighIs(env, w.out, blobs[0], 0);
        WeighKeepsInv(env, original, w, blobs[0]);
        if !full {
          WalkedKeepsInv(env, original, weighed, blobs[0], depth + 1);
          BlobsKeepInv(env, original, Walked(env, weighed, blobs[0], depth + 1), rest, depth);
        }
      }
    }
  }

  lemma PassKeepsInv(env: Env, content: Bytes)
    ensures var w := Pass(env, content);
            && WalkInv(env, content, w) && |w.out| <= Cap(1)
            && (env.phpish && |w.out| < MAX_MATCHES ==>
                  forall blob :: blob in DecodedLayer(env, content, MAX_BYTES).out ==> Settled(env, w, blob))
  {
    hide Walked, DecodedLayer, Settled, Indicated;
    var w := Began(env, content);
    assert WalkInv(env, content, w);
    WalkedKeepsInv(env, content, w, content, 1);
    if !Indicated(content) {
      NothingToDecode(env, content, MAX_BYTES);
    }
  }

  lemma {:induction false} NoRun(kind: Kind, data: Bytes, i: nat)
    requires i <= |data| && !AnyRun(kind, data)
    ensures FindFrom(kind, data, i) == []
    decreases |data| - i
  {
    hide RunAt;
    if i < |data| {
      assert RunAt(kind, data, i) == 0;
      NoRun(kind, data, i + 1);
    }
  }

  lemma NothingToDecode(env: Env, data: Bytes, left: int)
    requires !Indicated(data)
    ensures DecodedLayer(env, data, left) == Layer(left, [])
  {
    hide AnyRun, Contains;
    NoRun(Base64, data, 0);
    NoRun(Hex, data, 0);
  }

  /** THE GATE LOSES NOTHING. A file that does not pass the gate has nothing to decode: the
      pass on it is the walk without a gate. */
  lemma GateLosesNothing(env: Env, content: Bytes)
    requires env.phpish
    ensures Pass(env, content) == Walked(env, Began(env, content), content, 1)
  {
    hide Indicated, DecodedLayer;
    if !Indicated(content) {
      NothingToDecode(env, content, MAX_BYTES);
    }
  }

  /** WHAT A READ COSTS. Unless the decompressor fails within the limit, every byte that was
      read is charged, whether the result is kept or rejected as a bomb. */
  lemma BombsAreCharged(produced: Stream, input: nat, limit: nat, left: int)
    ensures var read := ReadUpTo(produced, input, limit, left);
            && read.left == (if FailsWithin(produced, limit) then left
                             else if |produced.bytes| < limit then left - |produced.bytes| else left - limit)
            && (read.out.Some? ==> read.out.value <= produced.bytes)
  {}

  lemma {:induction false} CountSplits(a: Bytes, b: Bytes)
    ensures CountPrintable(a + b) == CountPrintable(a) + CountPrintable(b)
  {
    if b == "" {
      assert a + b == a;
    } else {
      var n := |b| - 1;
      assert (a + b)[..|a + b| - 1] == a + b[..n];
      CountSplits(a, b[..n]);
    }
  }

  lemma {:induction false} CountAll(b: Bytes, text: bool)
    requires forall i :: 0 <= i < |b| ==> (PrintableChar(b[i]) <==> text)
    ensures CountPrintable(b) == if text then |b| else 0
  {
    if b != "" {
      CountAll(b[..|b| - 1], text);
    }
  }

  /** MOSTLY TEXT IS TEXT. Printable bytes and noise together are taken for text if and only
      if more than three of four bytes are printable. */
  lemma MostlyTextIff(text: Bytes, noise: Bytes)
    requires 0 < |text + noise| <= 512
    requires forall i :: 0 <= i < |text| ==> PrintableChar(text[i])
    requires forall i :: 0 <= i < |noise| ==> !PrintableChar(noise[i]) && noise[i] != '\0'
    ensures Printable(text + noise) <==> |text| > 3 * |noise|
  {
    CountSplits(text, noise);
    CountAll(text, true);
    CountAll(noise, false);
    hide CountPrintable;
  }

  // ------------------------------------------------------------ main results

  /** ONE BUDGET. Whatever the decoders produce, and although rejected inflations
      can drive the shared budget below zero, at most MAX_BYTES decoded bytes are
      kept over the whole pass, and the overdraft is never more than the budget. */
  lemma KeptBytesAreBounded(env: Env, content: Bytes)
    ensures var w := Pass(env, content);
            w.kept <= MAX_BYTES && w.kept + w.left <= MAX_BYTES && -MAX_BYTES <= w.left
  {
    PassKeepsInv(env, content);
  }

  /** EACH CONTENT ONCE. Nothing short and no media file is weighed, no two weighed blobs are equal
      and none is the file itself, so a double rot13 does not bring the file's own text back as decoded evidence. */
  lemma EachContentIsWeighedOnce(env: Env, content: Bytes)
    ensures var w := Pass(env, content);
            && WeighedIsCode(w) && content !in w.weighed && Rot13Text(Rot13Text(content)) !in w.weighed
            && (forall i, j :: 0 <= i < j < |w.weighed| ==> w.weighed[i] != w.weighed[j])
  {
    hide WorthWeighing;
    PassKeepsInv(env, content);
    Rot13TwiceIsNothing(content);
  }

  lemma RotatedTwice(letter: nat)
    requires letter < 26
    ensures Rotated(Rotated(letter)) == letter
  {}

  lemma Rot13CharTwice(c: char)
    ensures Rot13Char(Rot13Char(c)) == c
    ensures Letter(Rot13Char(c)) <==> Letter(c)
  {
    hide Rotated;
    if 'a' <= c <= 'z' {
      RotatedTwice(c as int - 'a' as int);
    } else if 'A' <= c <= 'Z' {
      RotatedTwice(c as int - 'A' as int);
    }
  }

  /** Each letter moves by thirteen places within its own case, and nothing else moves. */
  lemma Rot13MovesLetters(c: char)
    ensures var r := Rot13Char(c);
            if 'a' <= c <= 'm' || 'A' <= c <= 'M' then r as int == c as int + 13
            else if 'n' <= c <= 'z' || 'N' <= c <= 'Z' then r as int == c as int - 13
            else r == c
  {}

  lemma Rot13TwiceIsNothing(b: Bytes)
    ensures Rot13Text(Rot13Text(b)) == b
    ensures Rot13(b).Some? ==> Rot13(Rot13(b).value) == Some(b)
  {
    hide Rot13Char, Letter;
    forall i | 0 <= i < |b|
      ensures Rot13Text(Rot13Text(b))[i] == b[i]
      ensures Letter(Rot13Text(b)[i]) <==> Letter(b[i])
    {
      Rot13CharTwice(b[i]);
    }
  }

  /** ELEVEN, NOT EIGHT. A level that has reached the cap ends, but each of the
      three levels above it may add one match before it notices. */
  lemma MatchesAreBounded(env: Env, content: Bytes)
    ensures |Pass(env, content).out| <= MAX_MATCHES + MAX_DEPTH - 1
  {
    PassKeepsInv(env, content);
  }

  /** SOUND. Every match is a behavioural rule that did not fire in clear and does
      fire on a decoded blob, and is marked as decoded evidence. */
  lemma EveryMatchHasASource(env: Env, content: Bytes, m: Match)
    requires m in Pass(env, content).out
    ensures Sourced(env, Pass(env, content).weighed, m)
    ensures IsDecoded(m) && m.score >= WEIGHT_MODERATE
    ensures exists h :: Eligible(env, h) && m.name == DECODED_PREFIX + h.name && h.name !in env.clear
  {
    PassKeepsInv(env, content);
    var h, blob :| Speaks(env, h, blob) && blob in Pass(env, content).weighed && m == DecodedMatch(h);
    assert Eligible(env, h);
  }

  /** COMPLETE BELOW THE CAP. If the cap is not reached, every blob of the first
      layer that is long enough, is no media file and is not the file itself has a
      weighed blob with its key, and every eligible rule that fires on a weighed
      blob is reported. */
  lemma NothingIsMissedBelowTheCap(env: Env, content: Bytes, h: Rule, blob: Bytes)
    requires env.phpish && |Pass(env, content).out| < MAX_MATCHES
    ensures var weighed := Pass(env, content).weighed;
            blob in DecodedLayer(env, content, MAX_BYTES).out && WorthWeighing(blob)
            && env.key(blob) != env.key(content) ==>
              exists i :: 0 <= i < |weighed| && env.key(weighed[i]) == env.key(blob)
    ensures Speaks(env, h, blob) && blob in Pass(env, content).weighed ==> DecodedMatch(h) in Pass(env, content).out
  {
    hide DecodedLayer, TooPlain, Pass, WorthWeighing;
    PassKeepsInv(env, content);
    WorthIff(blob);
  }

  /** Decoded evidence alone never reaches the level at which a file is moved. */
  lemma DecodedAloneIsNotCritical(env: Env, content: Bytes, critical: int)
    ensures VerdictLevel(Pass(env, content).out, critical) != Critical
  {
    hide Pass;
    var out := Pass(env, content).out;
    forall m | m in out
      ensures !InClear(m)
    {
      EveryMatchHasASource(env, content, m);
    }
    CriticalIff(out, critical);
  }

  // ------------------------------------------------------ repeated names

  predicate Named(ms: seq<Match>, name: string) {
    exists i :: 0 <= i < |ms| && ms[i].name == name
  }

  /** The first match of each name. */
  function Deduped(ms: seq<Match>): seq<Match> {
    if ms == [] then []
    else
      var before := Deduped(ms[..|ms| - 1]);
      if Named(before, ms[|ms| - 1].name) then before else before + [ms[|ms| - 1]]
  }

  lemma {:induction false} DedupedIs(ms: seq<Match>)
    ensures var r := Deduped(ms);
            && |r| <= |ms| && (forall m :: m in r ==> m in ms)
            && (forall name :: Named(r, name) <==> Named(ms, name))
            && (forall i, j :: 0 <= i < j < |r| ==> r[i].name != r[j].name)
  {
    if ms != [] {
      var shorter, last := ms[..|ms| - 1], ms[|ms| - 1];
      DedupedIs(shorter);
      forall name
        ensures Named(Deduped(ms), name) <==> Named(ms, name)
      {
        NamedAppend(shorter, last, name);
        NamedAppend(Deduped(shorter), last, name);
        assert ms == shorter + [last];
      }
    }
  }

  lemma NamedAppend(ms: seq<Match>, m: Match, name: string)
    ensures Named(ms + [m], name) <==> Named(ms, name) || m.name == name
  {
    if Named(ms, name) {
      var i :| 0 <= i < |ms| && ms[i].name == name;
      assert (ms + [m])[i].name == name;
    }
    assert (ms + [m])[|ms|] == m;
  }

  /** The names met so far are those of the matches kept. */
  predicate SeenAre(seen: set<string>, ms: seq<Match>) {
    && (forall i :: 0 <= i < |ms| ==> ms[i].name in seen)
    && forall name :: name in seen ==> Named(ms, name)
  }

  lemma NothingSeen()
    ensures SeenAre({}, []) && Deduped([]) == []
  {}

  lemma DedupedNext(ms: seq<Match>, m: Match, seen: set<string>)
    requires SeenAre(seen, Deduped(ms))
    ensures Deduped(ms + [m]) == if m.name in seen then Deduped(ms) else Deduped(ms) + [m]
    ensures SeenAre(seen + {m.name}, if m.name in seen then Deduped(ms) else Deduped(ms) + [m])
  {
    assert (ms + [m])[..|ms|] == ms;
    var kept := Deduped(ms);
    forall name | name in seen + {m.name}
      ensures Named(if m.name in seen then kept else kept + [m], name)
    {
      NamedAppend(kept, m, name);
    }
  }

  /** Works in place: the kept matches move to the front of the array. */
  method DedupeMatches(a: array<Match>) returns (n: nat)
    modifies a
    ensures n <= a.Length && a[..n] == Deduped(old(a[..]))
  {
    hide Deduped, SeenAre;
    ghost var was := a[..];
    var seen: set<string> := {};
    n := 0;
    NothingSeen();
    for i := 0 to a.Length
      invariant n <= i
      invariant a[i..] == was[i..]
      invariant a[..n] == Deduped(was[..i])
      invariant SeenAre(seen, a[..n])
    {
      var m := a[i];
      assert m == was[i] && was[..i + 1] == was[..i] + [m];
      DedupedNext(was[..i], m, seen);
      if m.name in seen {
        continue;
      }
      seen := seen + {m.name};
      ghost var front, rest := a[..n], a[i + 1..];
      a[n] := m;
      n := n + 1;
      assert a[..n] == front + [m];
      assert a[i + 1..] == rest == was[i..][1..];
    }
    assert was[..a.Length] == was;
  }

  // ---------------------------------------------------- the walk, in place

  /** The budget every layer and every inflation of one file charges. */
  class Budget {
    var left: int

    constructor (left: int)
      ensures this.left == left
    {
      this.left := left;
    }
  }

  method ReadLimited(produced: Stream, input: nat, limit: nat, budget: Budget) returns (out: Option<Bytes>)
    modifies budget
    ensures Read(out, budget.left) == ReadUpTo(produced, input, limit, old(budget.left))
  {
    if FailsWithin(produced, limit) {
      return None;
    }
    var o := produced.bytes;
    if |o| > limit {
      o := o[..limit];
    }
    if |o| == 0 {
      return None;
    }
    budget.left := budget.left - |o|;
    if |o| > input * BOMB_RATIO {
      return None;
    }
    return Some(o);
  }

  method PrintableText(b: Bytes) returns (text: bool)
    ensures text == Printable(b)
  {
    if |b| == 0 {
      return false;
    }
    var head := Head(b);
    var printable := 0;
    for i := 0 to |head|
      invariant printable == CountPrintable(head[..i])
      invariant forall k :: 0 <= k < i ==> head[k] != '\0'
    {
      assert head[..i + 1][..i] == head[..i];
      if head[i] == '\0' {
        return false;
      }
      if PrintableChar(head[i]) {
        printable := printable + 1;
      }
    }
    assert head[..|head|] == head;
    return 4 * printable > 3 * |head|;
  }

  method Inflate(env: Env, b: Bytes, budget: Budget) returns (out: Option<Bytes>)
    modifies budget
    ensures Read(out, budget.left) == Inflated(env, b, old(budget.left))
  {
    if |b| < 4 || budget.left <= 0 {
      return None;
    }
    var limit := budget.left;
    out := None;
    if GzipHeader(b) {
      out := ReadLimited(env.gunzip(b), |b|, limit, budget);
    }
    if out == None && ZlibHeader(b) {
      out := ReadLimited(env.unzlib(b), |b|, limit, budget);
    }
    if out != None {
      return;
    }
    out := ReadLimited(if DeflateHeader(b) then env.deflated(b) else NOTHING, |b|, limit, budget);
    if out != None {
      var text := PrintableText(out.value);
      if !text {
        out := None;
      }
    }
  }

  method Rot13Bytes(b: Bytes) returns (r: Option<Bytes>)
    ensures r == Rot13(b)
  {
    var out := "";
    var moved := false;
    for i := 0 to |b|
      invariant |out| == i && forall k :: 0 <= k < i ==> out[k] == Rot13Char(b[k])
      invariant moved <==> exists k :: 0 <= k < i && Letter(b[k])
    {
      out := out + [Rot13Char(b[i])];
      moved := moved || Letter(b[i]);
    }
    assert out == Rot13Text(b);
    r := if moved then Some(out) else None;
  }

  class LayerBlobs {
    const budget: Budget
    var out: seq<Bytes>

    constructor (budget: Budget)
      ensures this.budget == budget && out == []
    {
      this.budget := budget;
      out := [];
    }

    ghost function Value(): Layer
      reads this, budget
    {
      Layer(budget.left, out)
    }

    method Add(b: Bytes)
      modifies this, budget
      ensures Value() == Added(old(Value()), b)
    {
      if |b| == 0 || budget.left <= 0 {
        return;
      }
      var cut := b;
      if |b| > budget.left {
        cut := b[..budget.left];
      }
      budget.left := budget.left - |cut|;
      out := out + [cut];
    }

    method AddInflated(env: Env, dec: Bytes)
      modifies this, budget
      ensures Value() == AddedInflated(env, old(Value()), dec)
    {
      Add(dec);
      var inflated := Inflate(env, dec, budget);
      if inflated != None {
        out := out + [inflated.value];
      }
    }
  }

  method DecodeLayer(env: Env, data: Bytes, budget: Budget) returns (out: seq<Bytes>)
    modifies budget
    ensures Layer(budget.left, out) == DecodedLayer(env, data, old(budget.left))
  {
    hide AddedInflated, Added, Rot13, OccursAt, FindFrom, FromHex, FromBase64;
    var layer := new LayerBlobs(budget);
    ghost var start := layer.Value();
    var runs := FirstN(Find(Base64, data), MAX_BLOBS);
    for i := 0 to |runs|
      invariant layer.Value() == AddedBase64(env, start, runs[..i])
    {
      assert runs[..i + 1][..i] == runs[..i];
      var dec := FromBase64(runs[i]);
      if |dec| == 0 {
        continue;
      }
      layer.AddInflated(env, dec);
    }
    assert runs[..|runs|] == runs;
    ghost var base64 := layer.Value();
    var hexes := FirstN(Find(Hex, data), MAX_BLOBS);
    for i := 0 to |hexes|
      invariant layer.Value() == AddedHex(env, base64, hexes[..i])
    {
      assert hexes[..i + 1][..i] == hexes[..i];
      var dec := FromHex(hexes[i]);
      if dec == None {
        continue;
      }
      layer.AddInflated(env, dec.value);
    }
    assert hexes[..|hexes|] == hexes;
    if Contains(data, "str_rot13") {
      var moved := Rot13Bytes(data);
      if moved != None {
        layer.Add(moved.value);
      }
    }
    out := layer.out;
  }

  class DecodeWalk {
    const env: Env
    const budget: Budget
    var seen: set<nat>
    var out: seq<Match>
    ghost var weighed: seq<Bytes>
    ghost var kept: nat

    constructor (env: Env, content: Bytes)
      ensures Value() == Began(env, content) && this.env == env && fresh(budget)
    {
      this.env := env;
      budget := new Budget(MAX_BYTES);
      seen, out := {env.key(content)}, [];
      weighed, kept := [], 0;
    }

    ghost function Value(): Walk
      reads this, budget
    {
      Walk(budget.left, seen, out, weighed, kept)
    }

    method FirstSight(blob: Bytes) returns (first: bool)
      modifies this
      ensures first == !(TooPlain(blob) || env.key(blob) in old(seen))
      ensures Value() == if first then See(env, old(Value()), blob) else old(Value())
    {
      if |blob| < 8 || LooksLikeAsset(blob) {
        return false;
      }
      if env.key(blob) in seen {
        return false;
      }
      seen := seen + {env.key(blob)};
      weighed := weighed + [blob];
      return true;
    }

    method MatchRules(blob: Bytes) returns (full: bool)
      modifies this
      ensures (out, full) == Weigh(env, old(out), blob, 0)
      ensures Value() == old(Value()).(out := out)
    {
      for i := 0 to |env.rules|
        invariant Weigh(env, old(out), blob, 0) == Weigh(env, out, blob, i)
        invariant Value() == old(Value()).(out := out)
      {
        var h := env.rules[i];
        if h.score < WEIGHT_MODERATE || h.name in env.clear || !AppliesTo(h, env.ext) {
          continue;
        }
        if h.pattern(blob) {
          out := out + [DecodedMatch(h)];
          if |out| >= MAX_MATCHES {
            return true;
          }
        }
      }
      return false;
    }

    method WalkFrom(data: Bytes, depth: nat)
      modifies this, budget
      ensures Value() == Walked(env, old(Value()), data, depth)
      decreases MAX_DEPTH + 1 - depth
    {
      hide Weigh, DecodedLayer, TotalBytes, TooPlain;
      if depth > MAX_DEPTH || budget.left <= 0 || |out| >= MAX_MATCHES {
        return;
      }
      var blobs := DecodeLayer(env, data, budget);
      kept := kept + TotalBytes(blobs);
      ghost var start := Value();
      for i := 0 to |blobs|
        invariant WalkedBlobs(env, start, blobs, depth) == WalkedBlobs(env, Value(), blobs[i..], depth)
      {
        assert blobs[i..][0] == blobs[i] && blobs[i..][1..] == blobs[i + 1..];
        var first := FirstSight(blobs[i]);
        if !first {
          continue;
        }
        var full := MatchRules(blobs[i]);
        if full {
          return;
        }
        WalkFrom(blobs[i], depth + 1);
      }
    }
  }

  method DecodedMatches(env: Env, content: Bytes) returns (found: seq<Match>)
    ensures found == Deduped(Pass(env, content).out)
  {
    if !env.phpish || !Indicated(content) {
      return [];
    }
    var d := new DecodeWalk(env, content);
    d.WalkFrom(content, 1);
    var a := new Match[|d.out|](i requires 0 <= i < |d.out| reads d => d.out[i]);
    assert a[..] == d.out;
    var n := DedupeMatches(a);
    found := a[..n];
  }
}
