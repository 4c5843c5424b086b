/** The bound on the findings of the decode pass is reached. A file of nested base64,
    four layers deep, gives eleven findings where decodeMaxMatches says eight
    (internal/antivirus/decoded.go:51-85, 135-181).

    The finders and the base64 decoder are the real ones, the decompressors are
    arbitrary, the rules each look for one character, and of the content hash only that
    it tells the blobs of this file apart is asked. */
module DecodeWitness {
  import opened Blobs
  import opened Rules
  import opened Decode
  import opened Wrappers

  /** One character for each rule; none is of the base64 alphabet. */
  const MARKS: seq<char> := "!#$%&()*<>?"

  predicate Plain(b: Bytes) {
    IsBytes(b) && |b| >= 18 && b[0] == '.' && '_' !in b && '\\' !in b
  }

  /** The blob that carries the mark of rule 10 - n; the one of the last layer none. */
  function Side(n: nat): Bytes {
    "." + [if n <= 2 then MARKS[10 - n] else '~'] + "~~~~~~~~~~~~~~~~"
  }

  /** The file with `n` layers unwrapped. */
  function Inner(n: nat): (b: Bytes)
    requires n <= 4
    ensures Plain(b)
    decreases 4 - n
  {
    if n == 4 then "." + MARKS[..8] + "~~~~~~~~~" else Wrapped(Inner(n + 1), Side(n))
  }

  /** A layer that holds these two blobs. */
  function Wrapped(a: Bytes, b: Bytes): (w: Bytes)
    requires IsBytes(a) && IsBytes(b) && |a| >= 18
    ensures Plain(w)
  {
    WrappedIsPlain(a, b);
    "." + Encoded(a) + "." + Encoded(b)
  }

  predicate Base64Text(b: Bytes) {
    forall i :: 0 <= i < |b| ==> Alphabet(b[i]) || b[i] == '='
  }

  lemma EncodedIsText(b: Bytes)
    requires IsBytes(b)
    ensures Base64Text(Encoded(b)) && |Encoded(b)| >= |b|
  {
    hide EncodedBody, Padding, Alphabet;
    var body, pad := EncodedBody(b), Padding(|b|);
    assert Encoded(b) == body + pad;
    assert |body| >= |b|;
  }

  lemma WrappedIsPlain(a: Bytes, b: Bytes)
    requires IsBytes(a) && IsBytes(b) && |a| >= 18
    ensures Plain("." + Encoded(a) + "." + Encoded(b))
    ensures forall i :: 0 <= i < |"." + Encoded(a) + "." + Encoded(b)| ==>
              var c := ("." + Encoded(a) + "." + Encoded(b))[i]; c == '.' || c == '=' || Alphabet(c)
  {
    hide Encoded, Alphabet;
    EncodedIsText(a);
    EncodedIsText(b);
    assert !Alphabet('_') && !Alphabet('\\') by { Outside(); }
    BytesOfText(Encoded(a));
    BytesOfText(Encoded(b));
  }

  lemma Outside()
    ensures !Alphabet('_') && !Alphabet('\\')
  {}

  lemma BytesOfText(b: Bytes)
    requires Base64Text(b)
    ensures IsBytes(b)
  {}

  // ------------------------------------------------------- one layer unwraps

  /** Where the two encoded texts are. */
  lemma WrappedAt(a: Bytes, b: Bytes)
    requires IsBytes(a) && IsBytes(b) && |a| >= 18 && |b| >= 18
    ensures var w, e, f := Wrapped(a, b), Encoded(a), Encoded(b);
            && e != "" && f != "" && |w| == 2 + |e| + |f|
            && RunAt(Base64, w, 1) == |e| && w[1..1 + |e|] == e
            && RunAt(Base64, w, 2 + |e|) == |f| && w[2 + |e|..2 + |e| + |f|] == f
            && w[0] == '.' && w[1 + |e|] == '.'
  {
    hide Encoded, RunAt, Plain;
    EncodedIsText(a);
    EncodedIsText(b);
    var w, e, f := Wrapped(a, b), Encoded(a), Encoded(b);
    assert w == "." + e + ("." + f) && w == "." + e + "." + f + "";
    EncodedIsARun(".", a, "." + f);
    EncodedIsARun("." + e + ".", b, "");
  }

  /** The two encoded texts are the two matches of the finder. */
  lemma WrappedRuns(a: Bytes, b: Bytes)
    requires IsBytes(a) && IsBytes(b) && |a| >= 18 && |b| >= 18
    ensures Find(Base64, Wrapped(a, b)) == [Encoded(a), Encoded(b)]
  {
    WrappedAt(a, b);
    var w, i := Wrapped(a, b), 1 + |Encoded(a)|;
    NoRunAtDot(w, 0);
    NoRunAtDot(w, i);
    hide Encoded, FindFrom, RunAt, Wrapped, IsBytes, Plain;
    TwoMatches(w, i);
  }

  /** A dot, a match, a dot, and a match to the end. */
  lemma TwoMatches(w: Bytes, i: nat)
    requires 1 < i < |w| - 1
    requires RunAt(Base64, w, 0) == 0 && RunAt(Base64, w, 1) == i - 1
    requires RunAt(Base64, w, i) == 0 && RunAt(Base64, w, i + 1) == |w| - i - 1
    ensures FindFrom(Base64, w, 0) == [w[1..i], w[i + 1..|w|]]
  {
    hide FindFrom, RunAt;
    FindHere(Base64, w, 0);
    FindHere(Base64, w, 1);
    FindHere(Base64, w, i);
    FindHere(Base64, w, i + 1);
    FindHere(Base64, w, |w|);
  }

  lemma NoRunAtDot(data: Bytes, i: nat)
    requires i < |data| && data[i] == '.'
    ensures RunAt(Base64, data, i) == 0
  {}

  /** Plain text does not open as any compressed format. */
  lemma PlainIsNotCompressed(env: Env, b: Bytes, left: int)
    requires Plain(b)
    ensures Inflated(env, b, left) == Read(None, left)
  {}

  lemma KeptWhole(env: Env, l: Layer, b: Bytes)
    requires Plain(b) && |b| <= l.left
    ensures AddedInflated(env, l, b) == Layer(l.left - |b|, l.out + [b])
  {
    hide Inflated;
    PlainIsNotCompressed(env, b, l.left - |b|);
  }

  lemma TwoRuns(env: Env, l: Layer, a: Bytes, b: Bytes)
    requires Plain(a) && Plain(b) && |a| + |b| <= l.left
    ensures AddedBase64(env, l, [Encoded(a), Encoded(b)]) == Layer(l.left - |a| - |b|, l.out + [a, b])
  {
    hide Encoded, AddedInflated, Plain, FromBase64;
    PlainDecodes(a);
    PlainDecodes(b);
    var runs := [Encoded(a), Encoded(b)];
    assert runs[..1] == [Encoded(a)] && runs[..1][..0] == [];
    KeptWhole(env, l, a);
    assert AddedBase64(env, l, runs[..1]) == Layer(l.left - |a|, l.out + [a]);
    KeptWhole(env, Layer(l.left - |a|, l.out + [a]), b);
    assert l.out + [a] + [b] == l.out + [a, b];
  }

  lemma PlainDecodes(b: Bytes)
    requires Plain(b)
    ensures IsBytes(b) && FromBase64(Encoded(b)) == b && b != ""
  {
    DecodingUndoesEncoding(b);
  }

  lemma NoRot13(data: Bytes)
    requires '_' !in data
    ensures !Contains(data, "str_rot13")
  {
    forall i | 0 <= i <= |data|
      ensures !OccursAt(data, "str_rot13", i)
    {
      assert "str_rot13"[3] == '_';
      assert i + 9 <= |data| ==> data[i..i + 9][3] == data[i + 3];
    }
  }

  lemma WrappedLayer(env: Env, a: Bytes, b: Bytes, left: int)
    requires Plain(a) && Plain(b) && |a| + |b| <= left
    ensures DecodedLayer(env, Wrapped(a, b), left) == Layer(left - |a| - |b|, [a, b])
  {
    hide Encoded, AddedBase64, FindFrom, Contains, Rot13, AddedInflated;
    var w := Wrapped(a, b);
    assert Plain(w) && IsBytes(a) && IsBytes(b);
    WrappedRuns(a, b);
    NoHexRun(w, 0);
    NoRot13(w);
    TwoRuns(env, Layer(left, []), a, b);
    assert [] + [a, b] == [a, b];
    NoMoreRuns(env, Layer(left - |a| - |b|, [a, b]));
  }

  lemma NoMoreRuns(env: Env, l: Layer)
    ensures AddedHex(env, l, []) == l
  {}

  // ------------------------------------------------------------- the rules

  /** Eleven rules with different names; rule `i` looks for one character. */
  ghost predicate LooksForMarks(env: Env) {
    && |env.rules| == 11
    && (forall i, j :: 0 <= i < j < 11 ==> env.rules[i].name != env.rules[j].name)
    && (forall i :: 0 <= i < 11 ==> Eligible(env, env.rules[i]) && Seeks(env.rules[i], MARKS[i]))
  }

  ghost predicate Seeks(h: Rule, mark: char) {
    forall b :: h.pattern(b) <==> mark in b
  }

  function FirstHits(env: Env, n: nat): (r: seq<Match>)
    requires n <= |env.rules|
    ensures |r| == n
  {
    seq(n, (i: nat) requires i < n => DecodedMatch(env.rules[i]))
  }

  /** The rules whose mark a blob carries, told one by one. */
  lemma {:induction false} WeighsFrom(env: Env, b: Bytes, first: nat, i: nat)
    requires LooksForMarks(env) && first <= i < 8
    requires forall k :: i <= k < 8 ==> MARKS[k] in b
    ensures Weigh(env, FirstHits(env, i), b, i) == (FirstHits(env, 8), true)
    decreases 8 - i
  {
    assert Seeks(env.rules[i], MARKS[i]);
    assert FirstHits(env, i) + [DecodedMatch(env.rules[i])] == FirstHits(env, i + 1);
    if i < 7 {
      WeighsFrom(env, b, first, i + 1);
    }
  }

  lemma InnermostWeighs(env: Env)
    requires LooksForMarks(env)
    ensures Weigh(env, FirstHits(env, 0), Inner(4), 0) == (FirstHits(env, 8), true)
  {
    var b := Inner(4);
    forall k | 0 <= k < 8
      ensures MARKS[k] in b
    {
      assert b[1 + k] == MARKS[k];
    }
    WeighsFrom(env, b, 0, 0);
  }

  /** Past the cap the side blob of layer `n` still adds its own match. */
  lemma {:induction false} SideWeighs(env: Env, n: nat, i: nat)
    requires LooksForMarks(env) && n <= 2 && i <= 10 - n
    ensures Weigh(env, FirstHits(env, 10 - n), Side(n), i) == (FirstHits(env, 11 - n), true)
    decreases 10 - n - i
  {
    assert Seeks(env.rules[i], MARKS[i]);
    SideHas(n, i);
    if i < 10 - n {
      SideWeighs(env, n, i + 1);
    } else {
      assert FirstHits(env, 10 - n) + [DecodedMatch(env.rules[i])] == FirstHits(env, 11 - n);
    }
  }

  lemma SideHas(n: nat, i: nat)
    requires n <= 2 && i < 11
    ensures MARKS[i] in Side(n) <==> i == 10 - n
  {
    assert Side(n)[1] == MARKS[10 - n];
  }

  lemma PlainIsBytes(b: Bytes)
    requires Plain(b)
    ensures IsBytes(b) && |b| >= 18
  {}

  /** A wrapped layer carries no mark. */
  lemma WrappedHasNoMark(a: Bytes, b: Bytes, i: nat)
    requires IsBytes(a) && IsBytes(b) && |a| >= 18 && i < 11
    ensures MARKS[i] !in Wrapped(a, b)
  {
    hide Encoded;
    WrappedIsPlain(a, b);
    assert MARKS[i] != '.' && MARKS[i] != '=' && !Alphabet(MARKS[i]);
  }

  lemma {:induction false} OuterIsQuiet(env: Env, n: nat, i: nat)
    requires LooksForMarks(env) && n <= 3 && i <= 11
    ensures Weigh(env, FirstHits(env, 0), Inner(n), i) == (FirstHits(env, 0), false)
    decreases 11 - i
  {
    hide Wrapped, Side, Plain;
    if i < 11 {
      assert Seeks(env.rules[i], MARKS[i]);
      SideIsPlain(n);
      PlainIsBytes(Side(n));
      PlainIsBytes(Inner(n + 1));
      WrappedHasNoMark(Inner(n + 1), Side(n), i);
      OuterIsQuiet(env, n, i + 1);
    }
  }

  // --------------------------------------------------------------- the walk

  lemma PlainIsNotTooPlain(b: Bytes)
    requires Plain(b)
    ensures !TooPlain(b)
  {
    forall k | 0 <= k < |MAGICS|
      ensures !(MAGICS[k] <= b)
    {
      assert MAGICS[k] != "" && MAGICS[k][0] != '.';
    }
  }

  lemma SideIsPlain(n: nat)
    ensures Plain(Side(n)) && |Side(n)| == 18
  {}

  /** The eight blobs that are seen. */
  function Blob(k: nat): Bytes
    requires k < 8
  {
    if k < 5 then Inner(k) else Side(k - 5)
  }

  ghost predicate TellsApart(env: Env) {
    forall a, b :: 0 <= a < b < 8 ==> env.key(Blob(a)) != env.key(Blob(b))
  }

  /** Before layer `depth` is unwrapped, only the layers around it are seen. */
  ghost predicate SeenAround(env: Env, w: Walk, depth: nat) {
    forall k :: k in w.seen ==> exists j :: 0 <= j < depth <= 5 && k == env.key(Blob(j))
  }

  /** After it, the layers and the side blobs from `depth` on inward. */
  ghost predicate SeenInside(env: Env, w: Walk, depth: nat) {
    forall k :: k in w.seen ==> exists j :: (0 <= j < 5 || 5 + depth <= j < 8) && k == env.key(Blob(j))
  }

  lemma AroundNotYet(env: Env, w: Walk, depth: nat)
    requires TellsApart(env) && 1 <= depth <= 4 && SeenAround(env, w, depth)
    ensures env.key(Inner(depth)) !in w.seen
    ensures SeenInside(env, w, depth)
  {
    assert Blob(depth) == Inner(depth);
  }

  lemma InsideNotYet(env: Env, w: Walk, depth: nat)
    requires TellsApart(env) && 1 <= depth <= 3 && SeenInside(env, w, depth)
    ensures env.key(Side(depth - 1)) !in w.seen
  {
    assert Blob(4 + depth) == Side(depth - 1);
  }

  lemma SeeInner(env: Env, w: Walk, depth: nat, out: seq<Match>)
    requires 1 <= depth <= 4 && SeenAround(env, w, depth)
    ensures SeenAround(env, See(env, w, Inner(depth)).(out := out), depth + 1)
  {
    assert Blob(depth) == Inner(depth);
  }

  lemma SeeSide(env: Env, w: Walk, depth: nat, out: seq<Match>)
    requires 1 <= depth <= 3 && SeenInside(env, w, depth)
    ensures SeenInside(env, See(env, w, Side(depth - 1)).(out := out), depth - 1)
  {
    assert Blob(4 + depth) == Side(depth - 1);
  }

  /** The bytes the layers from `depth` on inward unwrap to. */
  function Need(depth: nat): nat
    requires 1 <= depth <= 5
    decreases 5 - depth
  {
    if depth == 5 then 1 else |Inner(depth)| + 18 + Need(depth + 1)
  }

  predicate Ready(env: Env, w: Walk, depth: nat)
    requires 1 <= depth <= 4
  {
    w.out == [] && w.left >= Need(depth)
  }

  lemma FirstBlob(env: Env, w: Walk, rest: seq<Bytes>, depth: nat)
    requires LooksForMarks(env) && TellsApart(env) && 1 <= depth <= 4 && w.out == [] && SeenAround(env, w, depth)
    ensures var seen := See(env, w, Inner(depth));
            WalkedBlobs(env, w, [Inner(depth)] + rest, depth) ==
            if depth == 4 then seen.(out := FirstHits(env, 8))
            else WalkedBlobs(env, Walked(env, seen.(out := []), Inner(depth), depth + 1), rest, depth)
  {
    hide Weigh, TooPlain, Inner, LooksForMarks, TellsApart;
    PlainIsNotTooPlain(Inner(depth));
    AroundNotYet(env, w, depth);
    var blobs := [Inner(depth)] + rest;
    assert blobs[0] == Inner(depth) && blobs[1..] == rest;
    NoHits(env);
    if depth == 4 {
      InnermostWeighs(env);
    } else {
      OuterIsQuiet(env, depth, 0);
    }
  }

  lemma NoHits(env: Env)
    requires LooksForMarks(env)
    ensures |env.rules| == 11 && FirstHits(env, 0) == []
  {}

  lemma SecondBlob(env: Env, w: Walk, depth: nat)
    requires LooksForMarks(env) && TellsApart(env) && 1 <= depth <= 3 && SeenInside(env, w, depth)
    requires |env.rules| == 11 && w.out == FirstHits(env, 11 - depth)
    ensures WalkedBlobs(env, w, [Side(depth - 1)], depth)
            == See(env, w, Side(depth - 1)).(out := FirstHits(env, 12 - depth))
  {
    hide Weigh, TooPlain, Side, LooksForMarks, TellsApart, FirstHits;
    SideIsPlain(depth - 1);
    PlainIsNotTooPlain(Side(depth - 1));
    InsideNotYet(env, w, depth);
    SideWeighs(env, depth - 1, 0);
  }

  lemma {:induction false} Unwrap(env: Env, w: Walk, depth: nat)
    requires LooksForMarks(env) && TellsApart(env) && 1 <= depth <= 4
    requires Ready(env, w, depth) && SeenAround(env, w, depth)
    ensures var w' := Walked(env, w, Inner(depth - 1), depth);
            && |env.rules| == 11 && w'.out == FirstHits(env, 12 - depth) && SeenInside(env, w', depth - 1)
    decreases 5 - depth
  {
    hide DecodedLayer, LooksForMarks, TellsApart, FirstHits, SeenAround, SeenInside, WalkedBlobs, Wrapped, Side;
    NoHits(env);
    SideIsPlain(depth - 1);
    var a, b := Inner(depth), Side(depth - 1);
    WrappedLayer(env, a, b, w.left);
    var layer := Layer(w.left - |a| - |b|, [a, b]);
    var charged := w.(left := layer.left, kept := w.kept + TotalBytes(layer.out));
    SameSeen(env, w, charged, depth);
    assert [a] + [b] == [a, b];
    FirstBlob(env, charged, [b], depth);
    var next := See(env, charged, a).(out := []);
    SeeInner(env, charged, depth, []);
    if depth == 4 {
      SeeInner(env, charged, depth, FirstHits(env, 8));
      AllAround(env, See(env, charged, a).(out := FirstHits(env, 8)));
    } else {
      Unwrap(env, next, depth + 1);
      var inside := Walked(env, next, a, depth + 1);
      SecondBlob(env, inside, depth);
      SeeSide(env, inside, depth, FirstHits(env, 12 - depth));
    }
  }

  lemma SameSeen(env: Env, w: Walk, w': Walk, depth: nat)
    requires SeenAround(env, w, depth) && w'.seen == w.seen
    ensures SeenAround(env, w', depth)
  {}

  lemma AllAround(env: Env, w: Walk)
    requires SeenAround(env, w, 5)
    ensures SeenInside(env, w, 3)
  {}

  lemma TheFileIsIndicated()
    ensures Indicated(Inner(0))
  {
    hide Encoded;
    var e, f := Encoded(Inner(1)), Encoded(Side(0));
    SideIsPlain(0);
    EncodedIsText(Inner(1));
    assert Inner(0) == "." + e + ("." + f);
    EncodedIsARun(".", Inner(1), "." + f);
    assert RunAt(Base64, Inner(0), 1) > 0;
  }

  lemma Sizes()
    ensures Need(1) <= MAX_BYTES
  {
    hide Wrapped, Side;
    SideIsPlain(3);
    SideIsPlain(2);
    SideIsPlain(1);
    WrappedSize(Inner(4), Side(3));
    assert |Inner(4)| == 18;
    LayerIs(3);
    WrappedSize(Inner(3), Side(2));
    LayerIs(2);
    WrappedSize(Inner(2), Side(1));
    LayerIs(1);
    assert Need(4) == |Inner(4)| + 18 + 1;
    assert Need(3) == |Inner(3)| + 18 + Need(4);
    assert Need(2) == |Inner(2)| + 18 + Need(3);
  }

  lemma LayerIs(n: nat)
    requires n <= 3
    ensures Plain(Side(n)) && Inner(n) == Wrapped(Inner(n + 1), Side(n))
  {
    SideIsPlain(n);
  }

  lemma WrappedSize(a: Bytes, b: Bytes)
    requires Plain(a) && Plain(b)
    ensures |Wrapped(a, b)| <= 2 * |a| + 2 * |b| + 10
  {}

  /** ELEVEN IS EXACT. In a PHP file of nested base64, in every environment whose rules
      look for these marks and whose hash tells its eight blobs apart, the pass reports
      eleven findings, all of them different. */
  lemma ElevenAreReached(env: Env)
    requires env.phpish && LooksForMarks(env) && TellsApart(env)
    ensures |Deduped(Pass(env, Inner(0)).out)| == MAX_MATCHES + MAX_DEPTH - 1
  {
    hide Walked, Indicated, Need, Inner, Deduped, LooksForMarks, TellsApart;
    var w := Began(env, Inner(0));
    assert SeenAround(env, w, 1) by { assert Blob(0) == Inner(0); }
    TheFileIsIndicated();
    Sizes();
    Unwrap(env, w, 1);
    HitsStay(env);
  }

  lemma HitsStay(env: Env)
    requires LooksForMarks(env)
    ensures Deduped(FirstHits(env, 11)) == FirstHits(env, 11)
  {
    var hits := FirstHits(env, 11);
    forall i, j | 0 <= i < j < 11
      ensures hits[i].name != hits[j].name
    {
      assert hits[i].name[|DECODED_PREFIX|..] == env.rules[i].name;
      assert hits[j].name[|DECODED_PREFIX|..] == env.rules[j].name;
    }
    DistinctStay(hits);
  }

  lemma {:induction false} DistinctStay(ms: seq<Match>)
    requires forall i, j :: 0 <= i < j < |ms| ==> ms[i].name != ms[j].name
    ensures Deduped(ms) == ms
  {
    if ms != [] {
      var before, last := ms[..|ms| - 1], ms[|ms| - 1];
      forall i, j | 0 <= i < j < |before|
        ensures before[i].name != before[j].name
      {
        assert before[i] == ms[i] && before[j] == ms[j];
      }
      DistinctStay(before);
      forall i | 0 <= i < |before|
        ensures before[i].name != last.name
      {
        assert before[i] == ms[i];
      }
      hide Deduped;
      DedupedLast(ms);
      assert ms == before + [last];
    }
  }

  lemma DedupedLast(ms: seq<Match>)
    requires ms != []
    ensures var before, last := Deduped(ms[..|ms| - 1]), ms[|ms| - 1];
            Deduped(ms) == if Named(before, last.name) then before else before + [last]
  {}

  /** Such an environment exists. */
  lemma EnvironmentExists() returns (env: Env)
    ensures env.phpish && LooksForMarks(env) && TellsApart(env)
  {
    var none: Bytes -> Stream := b => NOTHING;
    env := Env("php", {},
               seq(11, (i: nat) => Rule(seq(i, k => 'r'), WEIGHT_MODERATE, b => i < 11 && MARKS[i] in b, [])),
               true, none, none, none, (b: Bytes) => WitnessKey(b));
    forall i, j | 0 <= i < j < 11
      ensures env.rules[i].name != env.rules[j].name
    {
      assert |env.rules[i].name| == i && |env.rules[j].name| == j;
    }
    forall a, b | 0 <= a < b < 8
      ensures env.key(Blob(a)) != env.key(Blob(b))
    {
      KeysDiffer(a, b);
    }
  }

  function WitnessKey(b: Bytes): nat {
    if |b| < 2 then 0 else 256 * |b| + (b[1] as int) % 256
  }

  lemma KeysDiffer(a: nat, b: nat)
    requires a < b < 8
    ensures WitnessKey(Blob(a)) != WitnessKey(Blob(b))
  {
    hide Inner, Side, WitnessKey, Plain;
    if b < 5 {
      InnerKey(a);
      InnerKey(b);
      SizesShrink(a, b);
    } else {
      SideKey(b - 5);
      if a < 4 {
        InnerKey(a);
        SizesShrink(a, 4);
        InnermostSize();
      } else if a == 4 {
        InnerKey(a);
        InnermostSize();
      } else {
        SideKey(a - 5);
      }
    }
  }

  lemma InnerKey(n: nat)
    requires n <= 4
    ensures 256 * |Inner(n)| <= WitnessKey(Inner(n)) < 256 * |Inner(n)| + 256
    ensures n == 4 ==> WitnessKey(Inner(n)) == 256 * |Inner(n)| + '!' as int
  {
    hide Wrapped;
  }

  lemma SideKey(n: nat)
    requires n <= 2
    ensures WitnessKey(Side(n)) == 256 * 18 + MARKS[10 - n] as int
  {
    assert |Side(n)| == 18 && Side(n)[1] == MARKS[10 - n];
  }

  lemma {:induction false} SizesShrink(a: nat, b: nat)
    requires a < b <= 4
    ensures |Inner(a)| > |Inner(b)|
    decreases b - a
  {
    hide Inner, Plain;
    GrowsAt(a);
    if a + 1 < b {
      SizesShrink(a + 1, b);
    }
  }

  lemma InnermostSize()
    ensures |Inner(4)| == 18
  {}

  lemma GrowsAt(n: nat)
    requires n <= 3
    ensures |Inner(n)| > |Inner(n + 1)|
  {
    LayerIs(n);
    WrappedGrows(Inner(n + 1), Side(n));
    hide Wrapped, Side;
  }

  lemma WrappedGrows(a: Bytes, b: Bytes)
    requires Plain(a) && Plain(b)
    ensures |Wrapped(a, b)| > |a|
  {}
}
