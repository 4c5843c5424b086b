/** What one layer of the decode pass holds when neither the blob limit nor the budget
    bites (internal/antivirus/decoded.go:192-321). */
module Layers {
  import opened Wrappers
  import opened Blobs
  import opened Rules
  import opened Decode

  /** The stream is read to its end, holds something and is no bomb. */
  predicate Succeeds(p: Stream, input: nat) {
    p.ending.Ends? && p.bytes != "" && |p.bytes| <= input * BOMB_RATIO
  }

  /** The first of the three formats that opens the blob. */
  function Opened(env: Env, b: Bytes): Option<Bytes> {
    if |b| < 4 then None
    else if GzipHeader(b) && Succeeds(env.gunzip(b), |b|) then Some(env.gunzip(b).bytes)
    else if ZlibHeader(b) && Succeeds(env.unzlib(b), |b|) then Some(env.unzlib(b).bytes)
    else if DeflateHeader(b) && Succeeds(env.deflated(b), |b|) && Printable(env.deflated(b).bytes)
    then Some(env.deflated(b).bytes)
    else None
  }

  function Given(o: Option<Bytes>): seq<Bytes> {
    if o.Some? then [o.value] else []
  }

  /** Nothing is cut while there is budget left. */
  lemma ReadIsWhole(p: Stream, input: nat, limit: nat, left: int)
    requires limit > 0 && left <= limit && ReadUpTo(p, input, limit, left).left > 0
    ensures ReadUpTo(p, input, limit, left).out == if Succeeds(p, input) then Some(p.bytes) else None
  {}

  lemma InflatedIsOpened(env: Env, b: Bytes, left: int)
    requires Inflated(env, b, left).left > 0
    ensures Inflated(env, b, left).out == Opened(env, b) && Inflated(env, b, left).left <= left
  {
    InflatedBounds(env, b, left);
    if |b| >= 4 {
      var headered := ReadHeadered(env, b, left, left);
      HeaderedIsOpened(env, b, left);
      if headered.out == None {
        var p := if DeflateHeader(b) then env.deflated(b) else NOTHING;
        hide ReadHeadered, Printable;
        ReadIsWhole(p, |b|, left, headered.left);
      }
    }
  }

  lemma HeaderedIsOpened(env: Env, b: Bytes, left: int)
    requires |b| >= 4 && left > 0 && ReadHeadered(env, b, left, left).left > 0
    ensures ReadHeadered(env, b, left, left).left <= left
    ensures ReadHeadered(env, b, left, left).out ==
            if GzipHeader(b) && Succeeds(env.gunzip(b), |b|) then Some(env.gunzip(b).bytes)
            else if ZlibHeader(b) && Succeeds(env.unzlib(b), |b|) then Some(env.unzlib(b).bytes)
            else None
  {
    HeadersExclude(b);
    if GzipHeader(b) {
      ReadIsWhole(env.gunzip(b), |b|, left, left);
    } else if ZlibHeader(b) {
      ReadIsWhole(env.unzlib(b), |b|, left, left);
    }
  }

  /** A decoded blob is kept whole, and what it opens to after it. */
  lemma AddedWhole(env: Env, l: Layer, dec: Bytes)
    requires AddedInflated(env, l, dec).left > 0
    ensures l.left > 0 && AddedInflated(env, l, dec).left <= l.left
    ensures AddedInflated(env, l, dec).out == l.out + (if dec == "" then [] else [dec]) + Given(Opened(env, dec))
  {
    hide Opened, Inflated;
    var plain := Added(l, dec);
    InflatedIsOpened(env, dec, plain.left);
  }

  // --------------------------------------------------------- what a layer holds

  /** A decoded blob, or what it opens to. */
  predicate Yields(env: Env, dec: Bytes, x: Bytes) {
    (x == dec && dec != "") || Opened(env, dec) == Some(x)
  }

  predicate FromSome64(env: Env, runs: seq<Bytes>, x: Bytes) {
    exists r :: r in runs && FromBase64(r) != "" && Yields(env, FromBase64(r), x)
  }

  predicate FromSomeHex(env: Env, runs: seq<Bytes>, x: Bytes) {
    exists r :: r in runs && FromHex(r).Some? && Yields(env, FromHex(r).value, x)
  }

  lemma AddedYields(env: Env, l: Layer, dec: Bytes, x: Bytes)
    requires AddedInflated(env, l, dec).left > 0
    ensures x in AddedInflated(env, l, dec).out <==> x in l.out || Yields(env, dec, x)
  {
    AddedWhole(env, l, dec);
    hide Opened, AddedInflated;
  }

  lemma LastRun(env: Env, runs: seq<Bytes>, x: Bytes)
    requires runs != []
    ensures var init, r := runs[..|runs| - 1], runs[|runs| - 1];
            && (FromSome64(env, runs, x) <==>
                FromSome64(env, init, x) || (FromBase64(r) != "" && Yields(env, FromBase64(r), x)))
            && (FromSomeHex(env, runs, x) <==>
                FromSomeHex(env, init, x) || (FromHex(r).Some? && Yields(env, FromHex(r).value, x)))
  {
    hide Yields, FromBase64, FromHex;
    var init, r := runs[..|runs| - 1], runs[|runs| - 1];
    assert runs == init + [r];
    assert forall q :: q in runs <==> q in init || q == r;
  }

  lemma {:induction false} Base64Holds(env: Env, l: Layer, runs: seq<Bytes>, x: Bytes)
    requires AddedBase64(env, l, runs).left > 0
    ensures x in AddedBase64(env, l, runs).out <==> x in l.out || FromSome64(env, runs, x)
    ensures l.left > 0
    decreases |runs|
  {
    hide AddedInflated, Yields, FromBase64, FromSome64;
    if runs == [] {
      NoRun(env, x);
    } else {
      var init, dec := runs[..|runs| - 1], FromBase64(runs[|runs| - 1]);
      LastRun(env, runs, x);
      if dec != "" {
        AddedWhole(env, AddedBase64(env, l, init), dec);
        AddedYields(env, AddedBase64(env, l, init), dec, x);
      }
      Base64Holds(env, l, init, x);
    }
  }

  lemma {:induction false} HexHolds(env: Env, l: Layer, runs: seq<Bytes>, x: Bytes)
    requires AddedHex(env, l, runs).left > 0
    ensures x in AddedHex(env, l, runs).out <==> x in l.out || FromSomeHex(env, runs, x)
    ensures l.left > 0
    decreases |runs|
  {
    hide AddedInflated, Yields, FromHex, FromSomeHex;
    if runs == [] {
      NoRun(env, x);
    } else {
      var init, dec := runs[..|runs| - 1], FromHex(runs[|runs| - 1]);
      LastRun(env, runs, x);
      if dec != None {
        AddedWhole(env, AddedHex(env, l, init), dec.value);
        AddedYields(env, AddedHex(env, l, init), dec.value, x);
      }
      HexHolds(env, l, init, x);
    }
  }

  lemma NoRun(env: Env, x: Bytes)
    ensures !FromSome64(env, [], x) && !FromSomeHex(env, [], x)
  {}

  /** WHAT A LAYER HOLDS, EXACTLY. Within the blob limit and the budget: the decoded text of
      every base64 and hex run of the data, what each of them opens to, the data rotated if
      it names str_rot13, and nothing else. */
  lemma LayerHolds(env: Env, data: Bytes, left: int, x: Bytes)
    requires |Find(Base64, data)| <= MAX_BLOBS && |Find(Hex, data)| <= MAX_BLOBS
    requires DecodedLayer(env, data, left).left > 0
    ensures x in DecodedLayer(env, data, left).out <==>
            || FromSome64(env, Find(Base64, data), x) || FromSomeHex(env, Find(Hex, data), x)
            || (Contains(data, "str_rot13") && Rot13(data) == Some(x))
  {
    assert Rot13(data).Some? ==> |Rot13(data).value| == |data| > 0;
    hide AddedBase64, AddedHex, Find, FromSome64, FromSomeHex, Contains, Rot13;
    var empty := Layer(left, []);
    var base64 := AddedBase64(env, empty, Find(Base64, data));
    var hex := AddedHex(env, base64, Find(Hex, data));
    assert DecodedLayer(env, data, left) ==
           if Contains(data, "str_rot13") && Rot13(data).Some? then Added(hex, Rot13(data).value) else hex;
    assert hex.left > 0;
    HexHolds(env, base64, Find(Hex, data), x);
    Base64Holds(env, empty, Find(Base64, data), x);
  }

  /** So the code that a hex spelling of 16 bytes or more hides is a blob of its layer. */
  lemma SpelledCodeIsHeld(env: Env, before: Bytes, code: Bytes, cases: seq<Case>, after: Bytes, left: int)
    requires IsBytes(code) && |code| >= 16 && |cases| == |code| && !HexPairAt(after, 0)
    requires |before| >= 4 ==> !HexPairAt(before, |before| - 4)
    requires var data := before + HexSpelling(code, cases) + after;
             && |Find(Base64, data)| <= MAX_BLOBS && |Find(Hex, data)| <= MAX_BLOBS
             && DecodedLayer(env, data, left).left > 0
    ensures code in DecodedLayer(env, before + HexSpelling(code, cases) + after, left).out
  {
    hide Find, FromHex, DecodedLayer, HexSpelling, HexPairAt, Contains, Rot13, FromSome64, Opened;
    var data := before + HexSpelling(code, cases) + after;
    SpellingIsFound(before, code, cases, after);
    HexUndoesSpelling(code, cases);
    assert FromSomeHex(env, Find(Hex, data), code);
    LayerHolds(env, data, left, code);
  }
}
