/** Loops that carry a state from sample to sample. */
module SampleRuns {

  /** A loop over samples that carries a state: where it ends and what it produced. */
  datatype Run<S, Y> = Run(state: S, outs: seq<Y>)

  function Fold<S, Y>(next: (S, real) -> S, output: (S, real) -> Y, s: S, xs: seq<real>): (t: Run<S, Y>)
    ensures |t.outs| == |xs|
  {
    if xs == [] then Run(s, [])
    else
      var n := |xs| - 1;
      var t := Fold(next, output, s, xs[..n]);
      Run(next(t.state, xs[n]), t.outs + [output(t.state, xs[n])])
  }

  lemma FoldLast<S, Y>(next: (S, real) -> S, output: (S, real) -> Y, s: S, xs: seq<real>, x: real)
    ensures var t := Fold(next, output, s, xs);
      Fold(next, output, s, xs + [x]) == Run(next(t.state, x), t.outs + [output(t.state, x)])
  {
    assert (xs + [x])[..|xs|] == xs;
  }

  /** What is produced for sample i, and the state after it, follow from the state before it. */
  lemma {:induction false} FoldAt<S, Y>(next: (S, real) -> S, output: (S, real) -> Y, s: S, xs: seq<real>, i: nat)
    requires i < |xs|
    ensures var t := Fold(next, output, s, xs[..i]);
      && Fold(next, output, s, xs).outs[i] == output(t.state, xs[i])
      && Fold(next, output, s, xs[..i + 1]).state == next(t.state, xs[i])
  {
    var n := |xs| - 1;
    assert xs[..i + 1] == xs[..i] + [xs[i]];
    FoldLast(next, output, s, xs[..i], xs[i]);
    if i < n {
      FoldAt(next, output, s, xs[..n], i);
      assert xs[..n][..i] == xs[..i];
    } else {
      assert xs[..i + 1] == xs;
    }
  }

  /** Taking n + m samples in one go is taking n and then m with the state carried over. */
  lemma {:induction false} FoldSplits<S, Y>(next: (S, real) -> S, output: (S, real) -> Y, s: S, a: seq<real>,
                                            b: seq<real>)
    ensures var t := Fold(next, output, s, a); var u := Fold(next, output, t.state, b);
      Fold(next, output, s, a + b) == Run(u.state, t.outs + u.outs)
  {
    if b == [] {
      assert a + b == a;
    } else {
      var n := |b| - 1;
      FoldSplits(next, output, s, a, b[..n]);
      FoldLast(next, output, s, a + b[..n], b[n]);
      assert a + b == a + b[..n] + [b[n]];
    }
  }
}

/** The dithered conversions of memops.c: the noise generator, triangular dither and
    error-feedback noise shaping. Floating-point values are taken as real numbers. */
module Dithering {
  import opened Bits
  import opened RingBuffers
  import opened Rounding
  import opened SampleFormats
  import opened StridedSamples
  import opened SampleRuns

  const DITHER_BUF_SIZE := 8
  const DITHER_BUF_MASK := 7
  const UINT_RANGE := 4294967296
  const FIRST_SEED := 22222

  function NextSeed(seed: int): int {
    (seed * 96314165 + 907633515) % UINT_RANGE
  }

  /** The dither value of a random number; INT_MAX as a float is 2^31. */
  function Noise(rand: int): real {
    2.0 * (rand as real) / 2147483648.0 - 1.0
  }

  predicate NoiseRange(r: real) {
    -1.0 <= r <= 3.0
  }

  lemma NoiseInRange(seed: int)
    ensures NoiseRange(Noise(NextSeed(seed)))
  {}

  /** A dither value stays within 1, as a dither value should, exactly if the random number is in
      the lower half of its range; above, it comes as close to 3 as the numbers are fine. */
  lemma NoiseWithinOneIff(seed: int)
    ensures -1.0 <= Noise(NextSeed(seed)) <= 3.0 - 1.0 / 1073741824.0
    ensures Noise(NextSeed(seed)) <= 1.0 <==> NextSeed(seed) <= 2147483648
  {}

  /** The very first random number is in the upper half. */
  lemma FirstNoiseAboveOne()
    ensures NextSeed(FIRST_SEED) == 2307294737 && Noise(NextSeed(FIRST_SEED)) > 1.0
  {}

  /** The inverse of the generator's multiplier modulo 2^32. */
  const INVERSE := 50845469

  function PreviousSeed(seed: int): int {
    ((seed - 907633515) * INVERSE) % UINT_RANGE
  }

  /** The generator's step is a bijection of the 32-bit numbers: no two seeds run together, and
      every number has a seed it follows. */
  lemma SeedStepIsBijective(seed: int)
    requires 0 <= seed < UINT_RANGE
    ensures 0 <= NextSeed(seed) < UINT_RANGE && PreviousSeed(NextSeed(seed)) == seed
    ensures 0 <= PreviousSeed(seed) < UINT_RANGE && NextSeed(PreviousSeed(seed)) == seed
  {
    StepBack(seed, 96314165, 907633515, INVERSE, 1140204);
    StepForth(seed, 96314165, 907633515, INVERSE, 1140204);
  }

  lemma StepBack(seed: int, a: int, c: int, inverse: int, k: int)
    requires 0 <= seed < UINT_RANGE && a * inverse == k * UINT_RANGE + 1
    ensures (((seed * a + c) % UINT_RANGE - c) * inverse) % UINT_RANGE == seed
  {
    MultiplyThrough(seed * a + c, -c, inverse);
    Regroup(seed, a, inverse);
    CollapsesTo(seed * a * inverse, seed, k);
  }

  lemma StepForth(seed: int, a: int, c: int, inverse: int, k: int)
    requires 0 <= seed < UINT_RANGE && a * inverse == k * UINT_RANGE + 1
    ensures ((((seed - c) * inverse) % UINT_RANGE) * a + c) % UINT_RANGE == seed
  {
    var x := seed - c;
    MultiplyThrough(x * inverse, 0, a);
    Regroup(x, inverse, a);
    CollapsesTo(x * inverse * a, x, k);
    ModAdd(((x * inverse) % UINT_RANGE) * a, c, UINT_RANGE);
    ModAdd(x, c, UINT_RANGE);
  }

  lemma Regroup(x: int, a: int, b: int)
    ensures x * a * b == x * (a * b) && a * b == b * a
  {}

  /** A number may be reduced modulo 2^32 before it is shifted and multiplied. */
  lemma MultiplyThrough(x: int, c: int, factor: int)
    ensures ((x % UINT_RANGE + c) * factor) % UINT_RANGE == ((x + c) * factor) % UINT_RANGE
  {
    var q := x / UINT_RANGE;
    var part := (x % UINT_RANGE + c) * factor;
    Distribute(q * UINT_RANGE, x % UINT_RANGE + c, factor);
    Regroup(q, UINT_RANGE, factor);
    Regroup(q, factor, UINT_RANGE);
    WholeTurns((x + c) * factor, part, q * factor);
  }

  /** Whole multiples of 2^32 make no difference. */
  lemma WholeTurns(x: int, y: int, k: int)
    requires x == y + k * UINT_RANGE
    ensures x % UINT_RANGE == y % UINT_RANGE
  {
    ModUnique(x, UINT_RANGE, y / UINT_RANGE + k, y % UINT_RANGE);
  }

  lemma CollapsesTo(x: int, y: int, k: int)
    requires x == y * (k * UINT_RANGE + 1)
    ensures x % UINT_RANGE == y % UINT_RANGE
  {
    Regroup(y, k, UINT_RANGE);
    WholeTurns(x, y, y * k);
  }

  /** The generator's static seed. */
  class FastRand {
    var seed: int

    ghost predicate Valid()
      reads this
    {
      0 <= seed < UINT_RANGE
    }

    constructor ()
      ensures Valid() && seed == FIRST_SEED
    {
      seed := FIRST_SEED;
    }

    /** A 32-bit number from which the seed before can be told, so no number is favoured. */
    method Next() returns (r: int)
      modifies this
      ensures Valid() && r == seed == NextSeed(old(seed))
      ensures old(Valid()) ==> PreviousSeed(r) == old(seed)
    {
      if 0 <= seed < UINT_RANGE {
        SeedStepIsBijective(seed);
      }
      seed := (seed * 96314165 + 907633515) % UINT_RANGE;
      r := seed;
    }
  }

  /** What is stored for a value on the 16-bit scale. */
  function PackScaled(f: Format, y: int, bigEndian: bool): (s: seq<byte>)
    ensures |s| == f.Width()
  {
    var scale := match f case S16 => 1 case S24 => 256 case S32u24 => 65536;
    Pack(f.Saturate(y * scale), f.Width(), bigEndian)
  }

  /** The end of the range or the number itself, of a 16-bit number seen as a fraction of 2^15. */
  predicate ReadsBack(f: Format, y: int, v: real) {
    && (-32768 <= y <= 32767 ==> v * 32768.0 == y as real)
    && (y > 32767 ==> v == if f.S16? then 32767.0 / 32768.0 else 8388607.0 / 8388608.0)
    && (y < -32768 ==> v == -1.0)
  }

  /** Reading a stored value back as a float gives that fraction, in every format and byte order. */
  lemma PackedReadsBack(f: Format, y: int, bigEndian: bool)
    ensures ReadsBack(f, y, Decode(f, PackScaled(f, y, bigEndian), bigEndian))
  {
    match f
    case S16 => PackedReadsBack16(y, bigEndian);
    case S24 => PackedReadsBack24(y, bigEndian);
    case S32u24 => PackedReadsBack32(y, bigEndian);
  }

  lemma PackedReadsBack16(y: int, bigEndian: bool)
    ensures ReadsBack(S16, y, Decode(S16, PackScaled(S16, y, bigEndian), bigEndian))
  {
    PackedInteger(S16, y, 1, bigEndian);
  }

  lemma PackedReadsBack24(y: int, bigEndian: bool)
    ensures ReadsBack(S24, y, Decode(S24, PackScaled(S24, y, bigEndian), bigEndian))
  {
    PackedInteger(S24, y, 256, bigEndian);
  }

  lemma PackedReadsBack32(y: int, bigEndian: bool)
    ensures ReadsBack(S32u24, y, Decode(S32u24, PackScaled(S32u24, y, bigEndian), bigEndian))
  {
    PackedInteger(S32u24, y, 65536, bigEndian);
  }

  /** The integer stored is the scaled value, cut off at the ends of the format's range. */
  lemma PackedInteger(f: Format, y: int, scale: int, bigEndian: bool)
    requires scale == if f.S16? then 1 else if f.S24? then 256 else 65536
    ensures Unpack(PackScaled(f, y, bigEndian), bigEndian) == f.Saturate(y * scale)
  {
    RangesFit(f);
    UnpackOfPack(f.Saturate(y * scale), f.Width(), bigEndian);
  }

  function PackAll(f: Format, ys: seq<int>, bigEndian: bool): (packets: seq<seq<byte>>)
    ensures |packets| == |ys| && Uniform(packets, f.Width())
    ensures forall i | 0 <= i < |ys| :: packets[i] == PackScaled(f, ys[i], bigEndian)
  {
    seq(|ys|, i requires 0 <= i < |ys| => PackScaled(f, ys[i], bigEndian))
  }

  function Sum(xs: seq<real>): real {
    if xs == [] then 0.0 else Sum(xs[..|xs| - 1]) + xs[|xs| - 1]
  }

  function AsReals(ys: seq<int>): (r: seq<real>)
    ensures |r| == |ys|
  {
    seq(|ys|, i requires 0 <= i < |ys| => ys[i] as real)
  }

  // ---------- triangular dither ----------

  datatype Tri = Tri(rm1: real, seed: int) {
    function Next(): Tri {
      Tri(Noise(NextSeed(seed)), NextSeed(seed))
    }

    /** The noise added to the next sample. */
    function Added(): real {
      Next().rm1 - rm1
    }

    function Output(x: real): int {
      Round(x * SAMPLE_MAX_16BIT + Added())
    }
  }

  const TRI_NEXT := (s: Tri, x: real) => s.Next()
  const TRI_OUTPUT := (s: Tri, x: real) => s.Output(x)
  const TRI_ADDED := (s: Tri, x: real) => s.Added()

  /** The values a run stores, and the noise it adds to each sample. */
  function TriAll(s: Tri, xs: seq<real>): Run<Tri, int> {
    Fold(TRI_NEXT, TRI_OUTPUT, s, xs)
  }

  function TriAdded(s: Tri, xs: seq<real>): Run<Tri, real> {
    Fold(TRI_NEXT, TRI_ADDED, s, xs)
  }

  /** The noise added over any run telescopes, so it stays within 4 however long the run. */
  lemma {:induction false} TriTelescopes(s: Tri, xs: seq<real>)
    requires NoiseRange(s.rm1)
    ensures var t := TriAdded(s, xs);
      && t.state == TriAll(s, xs).state
      && NoiseRange(t.state.rm1)
      && Sum(t.outs) == t.state.rm1 - s.rm1
      && -4.0 <= Sum(t.outs) <= 4.0
  {
    if xs != [] {
      var n := |xs| - 1;
      TriTelescopes(s, xs[..n]);
      var t, t' := TriAdded(s, xs[..n]), TriAdded(s, xs);
      NoiseInRange(t.state.seed);
      assert t'.outs[..n] == t.outs;
    }
  }

  /** Each stored value is its sample, scaled, plus the noise added, rounded; so the stored
      values add up to the scaled input within half a step a sample plus the bounded noise. */
  lemma {:induction false} TriDoesNotDrift(s: Tri, xs: seq<real>)
    requires NoiseRange(s.rm1)
    ensures var total := Sum(AsReals(TriAll(s, xs).outs)) - Sum(xs) * SAMPLE_MAX_16BIT;
      && -0.5 * (|xs| as real) <= total - Sum(TriAdded(s, xs).outs) <= 0.5 * (|xs| as real)
      && -0.5 * (|xs| as real) - 4.0 <= total <= 0.5 * (|xs| as real) + 4.0
  {
    TriTelescopes(s, xs);
    if xs != [] {
      var n := |xs| - 1;
      TriDoesNotDrift(s, xs[..n]);
      TriTelescopes(s, xs[..n]);
      var t, t' := TriAdded(s, xs[..n]), TriAdded(s, xs);
      assert t'.outs[..n] == t.outs;
      var u, u' := TriAll(s, xs[..n]), TriAll(s, xs);
      assert AsReals(u'.outs)[..n] == AsReals(u.outs);
      assert u'.outs[n] == u.state.Output(xs[n]) && t'.outs[n] == u.state.Added();
    }
  }

  /** The triangular conversion sample by sample: each stored value is the sample on the 16-bit
      scale, plus this noise less the last, rounded. */
  lemma TriSampleBySample(s: Tri, xs: seq<real>, i: nat)
    requires i < |xs|
    ensures var t, t' := TriAll(s, xs[..i]).state, TriAll(s, xs[..i + 1]).state;
      var seed := (t.seed * 96314165 + 907633515) % 4294967296;
      var r := 2.0 * (seed as real) / 2147483648.0 - 1.0;
      && TriAll(s, xs).outs[i] == Round(xs[i] * 32768.0 + r - t.rm1)
      && t'.rm1 == r && t'.seed == seed
    ensures TriAll(s, []).state == s
  {
    FoldAt(TRI_NEXT, TRI_OUTPUT, s, xs, i);
  }

  // ---------- noise shaping ----------

  /** The error filter, newest error first. */
  function Filter(e0: real, e1: real, e2: real, e3: real, e4: real): real {
    e0 * 2.033 - e1 * 2.165 + e2 * 1.959 - e3 * 1.590 + e4 * 0.6149
  }

  /** The slot k places before a slot of the circular buffer. */
  function Back(idx: int, k: int): (slot: int)
    ensures 0 <= slot < DITHER_BUF_SIZE && slot == (idx - k) % DITHER_BUF_SIZE
  {
    MaskInBuffer(idx - k);
    And(idx - k, DITHER_BUF_MASK)
  }

  /** The dither state, with its circular error buffer. */
  datatype Shaper = Shaper(rm1: real, seed: int, idx: int, e: seq<real>) {
    predicate Valid() {
      0 <= idx < DITHER_BUF_SIZE && |e| == DITHER_BUF_SIZE
    }

    /** The error k samples ago. */
    function Tap(k: nat): real
      requires Valid()
    {
      e[Back(idx, k)]
    }

    function Filtered(): real
      requires Valid()
    {
      Filter(e[idx], Tap(1), Tap(2), Tap(3), Tap(4))
    }

    function Output(x: real): int
      requires Valid()
    {
      Round(x * SAMPLE_MAX_16BIT - Filtered() + Noise(NextSeed(seed)) - rm1)
    }

    /** The difference between what is stored and what the filter asked for. */
    function Error(x: real): real
      requires Valid()
    {
      Output(x) as real - (x * SAMPLE_MAX_16BIT - Filtered())
    }

    function Next(x: real): (s: Shaper)
      requires Valid()
      ensures s.Valid()
    {
      var i := Back(idx, -1);
      Shaper(Noise(NextSeed(seed)), NextSeed(seed), i,
             e[i := Error(x)])
    }
  }

  lemma MaskInBuffer(i: int)
    ensures And(i, DITHER_BUF_MASK) == i % DITHER_BUF_SIZE
  {
    assert IsPow2(2) && IsPow2(4) && IsPow2(8);
    MaskIsMod(i, DITHER_BUF_SIZE);
  }

  type Shaping = s: Shaper | s.Valid() witness Shaper(0.0, 0, 0, seq(8, _ => 0.0))

  const SHAPE_NEXT := (s: Shaping, x: real) => s.Next(x)
  const SHAPE_OUTPUT := (s: Shaping, x: real) => s.Output(x)

  function ShapeAll(s: Shaping, xs: seq<real>): Run<Shaping, int> {
    Fold<Shaping, int>(SHAPE_NEXT, SHAPE_OUTPUT, s, xs)
  }

  /** One sample shaped: the last five errors are filtered out of the sample on the 16-bit scale,
      the triangular noise is added and the sum rounded; what that is off from the filtered sample
      becomes the newest error, in place of the oldest. */
  predicate ShapedLaw(t: Shaping, x: real, out: int, t': Shaping) {
    var seed := (t.seed * 96314165 + 907633515) % 4294967296;
    var r := 2.0 * (seed as real) / 2147483648.0 - 1.0;
    var xe := x * 32768.0 - t.e[t.idx] * 2.033 + t.e[(t.idx - 1) % 8] * 2.165 - t.e[(t.idx - 2) % 8] * 1.959
              + t.e[(t.idx - 3) % 8] * 1.590 - t.e[(t.idx - 4) % 8] * 0.6149;
    && out == Round(xe + r - t.rm1)
    && t' == Shaper(r, seed, (t.idx + 1) % 8, t.e[(t.idx + 1) % 8 := out as real - xe])
  }

  lemma ShapedStep(t: Shaping, x: real)
    ensures ShapedLaw(t, x, t.Output(x), t.Next(x))
  {
    assert t.Filtered() ==
           t.e[t.idx] * 2.033 - t.Tap(1) * 2.165 + t.Tap(2) * 1.959 - t.Tap(3) * 1.590 + t.Tap(4) * 0.6149;
  }

  /** The shaped conversion obeys that law at every sample of a run. */
  lemma ShapedSampleBySample(s: Shaping, xs: seq<real>, i: nat)
    requires i < |xs|
    ensures ShapedLaw(ShapeAll(s, xs[..i]).state, xs[i], ShapeAll(s, xs).outs[i], ShapeAll(s, xs[..i + 1]).state)
    ensures ShapeAll(s, []).state == s
  {
    FoldAt<Shaping, int>(SHAPE_NEXT, SHAPE_OUTPUT, s, xs, i);
    ShapedStep(ShapeAll(s, xs[..i]).state, xs[i]);
  }

  /** Shaping with the whole history of errors instead of a buffer of the last eight. */
  datatype Recall = Recall(rm1: real, seed: int, errors: seq<real>) {
    function Ago(k: nat): real
      requires k < |errors|
    {
      errors[|errors| - 1 - k]
    }

    function Filtered(): real
      requires |errors| >= 5
    {
      Filter(Ago(0), Ago(1), Ago(2), Ago(3), Ago(4))
    }

    function Output(x: real): int
      requires |errors| >= 5
    {
      Round(x * SAMPLE_MAX_16BIT - Filtered() + Noise(NextSeed(seed)) - rm1)
    }

    function Error(x: real): real
      requires |errors| >= 5
    {
      Output(x) as real - (x * SAMPLE_MAX_16BIT - Filtered())
    }

    function Next(x: real): Recall
      requires |errors| >= 5
    {
      Recall(Noise(NextSeed(seed)), NextSeed(seed),
             errors + [Error(x)])
    }
  }

  type Recalling = s: Recall | |s.errors| >= 5 witness Recall(0.0, 0, [0.0, 0.0, 0.0, 0.0, 0.0])

  const RECALL_NEXT := (s: Recalling, x: real) => s.Next(x)
  const RECALL_OUTPUT := (s: Recalling, x: real) => s.Output(x)

  function RecallAll(s: Recalling, xs: seq<real>): Run<Recalling, int> {
    Fold<Recalling, int>(RECALL_NEXT, RECALL_OUTPUT, s, xs)
  }

  /** The buffer holds the last eight errors of the history. */
  ghost predicate Remembers(s: Shaping, u: Recalling) {
    && |u.errors| >= DITHER_BUF_SIZE
    && s.rm1 == u.rm1 && s.seed == u.seed
    && forall k: nat | k < DITHER_BUF_SIZE :: s.Tap(k) == u.Ago(k)
  }

  /** The errors in a buffer, oldest first. */
  function Recalled(s: Shaping): Recalling
  {
    Recall(s.rm1, s.seed, seq(DITHER_BUF_SIZE, i requires 0 <= i < DITHER_BUF_SIZE => s.Tap(DITHER_BUF_SIZE - 1 - i)))
  }

  lemma SameOutput(s: Shaping, u: Recalling, x: real)
    requires Remembers(s, u)
    ensures s.Output(x) == u.Output(x) && s.Error(x) == u.Error(x)
  {
    assert s.Tap(0) == s.e[s.idx];
    assert s.Filtered() == u.Filtered() by {
      assert s.Tap(0) == u.Ago(0) && s.Tap(1) == u.Ago(1) && s.Tap(2) == u.Ago(2);
      assert s.Tap(3) == u.Ago(3) && s.Tap(4) == u.Ago(4);
    }
  }

  lemma SlotsShift(idx: int, k: int)
    requires 0 <= k < DITHER_BUF_SIZE
    ensures k == 0 ==> Back(Back(idx, -1), k) == Back(idx, -1)
    ensures k > 0 ==> Back(Back(idx, -1), k) == Back(idx, k - 1) != Back(idx, -1)
  {
    ModAdd(idx + 1, -k, DITHER_BUF_SIZE);
    if k > 0 {
      ModApart(idx + 1 - k, idx + 1, DITHER_BUF_SIZE);
    }
  }

  /** What was k samples ago is k + 1 samples ago after the next sample. */
  lemma TapsShift(s: Shaping, x: real, k: nat)
    requires k < DITHER_BUF_SIZE
    ensures s.Next(x).Tap(k) == if k == 0 then s.Error(x) else s.Tap(k - 1)
  {
    SlotsShift(s.idx, k);
  }

  lemma ErrorsShift(u: Recalling, x: real, k: nat)
    requires k < |u.errors|
    ensures u.Next(x).Ago(k) == if k == 0 then u.Error(x) else u.Ago(k - 1)
  {}

  lemma NextRemembers(s: Shaping, u: Recalling, x: real)
    requires Remembers(s, u)
    ensures s.Output(x) == u.Output(x)
    ensures Remembers(s.Next(x), u.Next(x))
  {
    SameOutput(s, u, x);
    forall k: nat | k < DITHER_BUF_SIZE
      ensures s.Next(x).Tap(k) == u.Next(x).Ago(k)
    {
      TapsShift(s, x, k);
      ErrorsShift(u, x, k);
    }
  }

  /** The masked eight-slot form computes exactly what the five-tap filter over the whole error
      history computes, over any run. */
  lemma {:induction false} BufferIsHistory(s: Shaping, xs: seq<real>)
    ensures ShapeAll(s, xs).outs == RecallAll(Recalled(s), xs).outs
    ensures Remembers(ShapeAll(s, xs).state, RecallAll(Recalled(s), xs).state)
  {
    if xs != [] {
      var n := |xs| - 1;
      BufferIsHistory(s, xs[..n]);
      NextRemembers(ShapeAll(s, xs[..n]).state, RecallAll(Recalled(s), xs[..n]).state, xs[n]);
    }
  }

  predicate Small(e: real) {
    -4.5 <= e <= 4.5
  }

  /** States reachable from a cleared one. */
  predicate Bounded(s: Shaper) {
    s.Valid() && NoiseRange(s.rm1) && forall i | 0 <= i < |s.e| :: Small(s.e[i])
  }

  lemma FilterBound(e0: real, e1: real, e2: real, e3: real, e4: real)
    requires Small(e0) && Small(e1) && Small(e2) && Small(e3) && Small(e4)
    ensures -4.5 * 8.3619 <= Filter(e0, e1, e2, e3, e4) <= 4.5 * 8.3619
  {}

  lemma NextStaysBounded(s: Shaper, x: real)
    requires Bounded(s)
    ensures Bounded(s.Next(x))
    ensures -4.5 * 9.3619 <= s.Output(x) as real - x * SAMPLE_MAX_16BIT <= 4.5 * 9.3619
  {
    NoiseInRange(s.seed);
    FilterBound(s.e[s.idx], s.Tap(1), s.Tap(2), s.Tap(3), s.Tap(4));
    assert Small(s.Error(x));
  }

  /** For any input and any length of run, no stored error exceeds 4.5 steps, so before
      saturation every output is within 4.5 * 9.3619 steps of its input. */
  lemma {:induction false} ShapingIsStable(s: Shaper, xs: seq<real>)
    requires Bounded(s)
    ensures Bounded(ShapeAll(s, xs).state)
    ensures forall i | 0 <= i < |xs| ::
              -4.5 * 9.3619 <= ShapeAll(s, xs).outs[i] as real - xs[i] * SAMPLE_MAX_16BIT <= 4.5 * 9.3619
  {
    if xs != [] {
      var n := |xs| - 1;
      ShapingIsStable(s, xs[..n]);
      NextStaysBounded(ShapeAll(s, xs[..n]).state, xs[n]);
    }
  }

  /** Block boundaries do not matter: the values of a and then of b, with the state and seed carried
      over, are those of a + b. */
  lemma TriRunSplits(s: Tri, a: seq<real>, b: seq<real>)
    ensures var t := TriAll(s, a);
      TriAll(s, a + b) == Run(TriAll(t.state, b).state, t.outs + TriAll(t.state, b).outs)
  {
    FoldSplits(TRI_NEXT, TRI_OUTPUT, s, a, b);
  }

  lemma ShapedRunSplits(s: Shaping, a: seq<real>, b: seq<real>)
    ensures var t := ShapeAll(s, a);
      ShapeAll(s, a + b) == Run(ShapeAll(t.state, b).state, t.outs + ShapeAll(t.state, b).outs)
  {
    FoldSplits<Shaping, int>(SHAPE_NEXT, SHAPE_OUTPUT, s, a, b);
  }

  lemma BytesIgnoreBlocks(f: Format, buf: seq<byte>, off: nat, skip: nat, y: seq<int>, z: seq<int>, bigEndian: bool)
    requires Fits(|buf|, off, skip, |y| + |z|, f.Width())
    ensures Fits(|buf|, off, skip, |y|, f.Width()) && Fits(|buf|, Pos(off, skip, |y|), skip, |z|, f.Width())
    ensures PutAll(buf, off, skip, f.Width(), PackAll(f, y + z, bigEndian)) ==
            PutAll(PutAll(buf, off, skip, f.Width(), PackAll(f, y, bigEndian)),
                   Pos(off, skip, |y|), skip, f.Width(), PackAll(f, z, bigEndian))
  {
    PackAllJoins(f, y, z, bigEndian);
    PutAllSplits(buf, off, skip, f.Width(), PackAll(f, y + z, bigEndian), |y|);
  }

  lemma PackAllJoins(f: Format, y: seq<int>, z: seq<int>, bigEndian: bool)
    ensures PackAll(f, y + z, bigEndian)[..|y|] == PackAll(f, y, bigEndian)
    ensures PackAll(f, y + z, bigEndian)[|y|..] == PackAll(f, z, bigEndian)
  {}

  // ---------- the conversions ----------

  class DitherState {
    var rm1: real
    var idx: int
    const e: array<real>

    ghost predicate Valid()
      reads this
    {
      0 <= idx < DITHER_BUF_SIZE && e.Length == DITHER_BUF_SIZE
    }

    /** The state of a shaped conversion, the generator's seed included. */
    ghost function Value(rand: FastRand): Shaping
      reads this, e, rand
      requires Valid()
    {
      Shaper(rm1, rand.seed, idx, e[..])
    }

    constructor ()
      ensures Valid() && rm1 == 0.0 && idx == 0 && e[..] == seq(DITHER_BUF_SIZE, _ => 0.0)
    {
      rm1, idx := 0.0, 0;
      e := new real[DITHER_BUF_SIZE](_ => 0.0);
    }
  }

  /** sample_move_dither_tri_d16_sS, _d24_sS and _d32u24_sS. */
  method MoveDitherTri(f: Format, dst: array<byte>, off: nat, src: seq<real>, dstSkip: nat,
                       state: DitherState, rand: FastRand, bigEndian: bool)
    requires Fits(dst.Length, off, dstSkip, |src|, f.Width())
    modifies dst, state`rm1, rand
    ensures Effect(dst[..], Tri(state.rm1, rand.seed)) ==
            TriEffect(old(dst[..]), off, dstSkip, f, bigEndian, old(Tri(state.rm1, rand.seed)), src)
  {
    var rm1 := state.rm1;
    var d, s := off, 0;
    ghost var before, initial := dst[..], Tri(state.rm1, rand.seed);
    ghost var t := TriAll(initial, []);
    PosAdvances(off, dstSkip, 0);
    while s < |src|
      invariant 0 <= s <= |src| && d == Pos(off, dstSkip, s)
      invariant t == TriAll(initial, src[..s]) && Tri(rm1, rand.seed) == t.state
      invariant Fits(dst.Length, off, dstSkip, s, f.Width())
      invariant dst[..] == Stored(before, off, dstSkip, f, bigEndian, t)
    {
      TriAdvances(before, off, dstSkip, f, bigEndian, initial, src, s);
      t := TriAll(initial, src[..s + 1]);
      var y;
      rm1, y := TriOne(src[s], rm1, rand);
      StorePacket(dst, d, PackScaled(f, y, bigEndian));
      d := d + dstSkip;
      s := s + 1;
    }
    assert src[..s] == src;
    state.rm1 := rm1;
  }

  /** The body of the triangular loop up to the store. */
  method TriOne(sample: real, rm1: real, rand: FastRand) returns (rm1': real, y: int)
    modifies rand
    ensures var s := old(Tri(rm1, rand.seed));
      y == s.Output(sample) && Tri(rm1', rand.seed) == s.Next()
  {
    var x := sample * SAMPLE_MAX_16BIT;
    var random := rand.Next();
    var r := Noise(random);
    x := x + (r - rm1);
    rm1' := r;
    y := Round(x);
  }

  /** Storing one more value after others. */
  lemma PutOneMore(buf: seq<byte>, off: nat, skip: nat, f: Format, ys: seq<int>, y: int, bigEndian: bool)
    requires Fits(|buf|, off, skip, |ys| + 1, f.Width())
    ensures Fits(|buf|, off, skip, |ys|, f.Width()) && Pos(off, skip, |ys|) + f.Width() <= |buf|
    ensures PutAll(buf, off, skip, f.Width(), PackAll(f, ys + [y], bigEndian)) ==
            Put(PutAll(buf, off, skip, f.Width(), PackAll(f, ys, bigEndian)), Pos(off, skip, |ys|),
                PackScaled(f, y, bigEndian))
  {
    FitsFewer(|buf|, off, skip, |ys| + 1, |ys|, f.Width());
    assert PackAll(f, ys + [y], bigEndian)[..|ys|] == PackAll(f, ys, bigEndian);
  }

  /** The buffer after storing what a run over the samples produces. */
  function Stored<S>(buf: seq<byte>, off: nat, skip: nat, f: Format, bigEndian: bool, t: Run<S, int>): (b: seq<byte>)
    requires Fits(|buf|, off, skip, |t.outs|, f.Width())
    ensures |b| == |buf|
  {
    PutAll(buf, off, skip, f.Width(), PackAll(f, t.outs, bigEndian))
  }

  /** One more round of a conversion loop: one more value produced and stored. */
  lemma StoredAdvances<S>(buf: seq<byte>, off: nat, skip: nat, f: Format, bigEndian: bool, total: nat,
                          t: Run<S, int>, t': Run<S, int>, y: int)
    requires Fits(|buf|, off, skip, total, f.Width()) && |t.outs| < total && t'.outs == t.outs + [y]
    ensures var k := |t.outs|;
      && Fits(|buf|, off, skip, k, f.Width()) && Fits(|buf|, off, skip, k + 1, f.Width())
      && Pos(off, skip, k) + f.Width() <= |buf| && Pos(off, skip, k + 1) == Pos(off, skip, k) + skip
      && Stored(buf, off, skip, f, bigEndian, t') ==
         Put(Stored(buf, off, skip, f, bigEndian, t), Pos(off, skip, k), PackScaled(f, y, bigEndian))
  {
    FitsFewer(|buf|, off, skip, total, |t.outs|, f.Width());
    FitsFewer(|buf|, off, skip, total, |t.outs| + 1, f.Width());
    PosAdvances(off, skip, |t.outs|);
    PutOneMore(buf, off, skip, f, t.outs, y, bigEndian);
  }

  lemma ShapedEffectAdvances(buf: seq<byte>, off: nat, skip: nat, f: Format, bigEndian: bool, initial: Shaping,
                             xs: seq<real>, k: nat)
    requires Fits(|buf|, off, skip, |xs|, f.Width()) && k < |xs|
    ensures Fits(|buf|, off, skip, k, f.Width()) && Fits(|buf|, off, skip, k + 1, f.Width())
    ensures Pos(off, skip, k) + f.Width() <= |buf| && Pos(off, skip, k + 1) == Pos(off, skip, k) + skip
    ensures var done := ShapedEffect(buf, off, skip, f, bigEndian, initial, xs[..k]);
      |done.bytes| == |buf| &&
      ShapedEffect(buf, off, skip, f, bigEndian, initial, xs[..k + 1]) ==
      Effect(Put(done.bytes, Pos(off, skip, k), PackScaled(f, done.state.Output(xs[k]), bigEndian)),
             done.state.Next(xs[k]))
  {
    assert xs[..k + 1] == xs[..k] + [xs[k]];
    FoldLast<Shaping, int>(SHAPE_NEXT, SHAPE_OUTPUT, initial, xs[..k], xs[k]);
    var t := ShapeAll(initial, xs[..k]);
    StoredAdvances(buf, off, skip, f, bigEndian, |xs|, t, ShapeAll(initial, xs[..k + 1]), t.state.Output(xs[k]));
  }

  lemma TriAdvances(buf: seq<byte>, off: nat, skip: nat, f: Format, bigEndian: bool, initial: Tri, xs: seq<real>,
                    k: nat)
    requires Fits(|buf|, off, skip, |xs|, f.Width()) && k < |xs|
    ensures Fits(|buf|, off, skip, k, f.Width()) && Fits(|buf|, off, skip, k + 1, f.Width())
    ensures Pos(off, skip, k) + f.Width() <= |buf| && Pos(off, skip, k + 1) == Pos(off, skip, k) + skip
    ensures var t := TriAll(initial, xs[..k]); var t' := TriAll(initial, xs[..k + 1]);
      && t'.state == t.state.Next()
      && Stored(buf, off, skip, f, bigEndian, t') ==
         Put(Stored(buf, off, skip, f, bigEndian, t), Pos(off, skip, k),
             PackScaled(f, t.state.Output(xs[k]), bigEndian))
  {
    assert xs[..k + 1] == xs[..k] + [xs[k]];
    FoldLast(TRI_NEXT, TRI_OUTPUT, initial, xs[..k], xs[k]);
    var t := TriAll(initial, xs[..k]);
    StoredAdvances(buf, off, skip, f, bigEndian, |xs|, t, TriAll(initial, xs[..k + 1]), t.state.Output(xs[k]));
  }

  /** sample_move_dither_shaped_d16_sS, _d24_sS and _d32u24_sS. */
  method MoveDitherShaped(f: Format, dst: array<byte>, off: nat, src: seq<real>, dstSkip: nat,
                          state: DitherState, rand: FastRand, bigEndian: bool)
    requires Fits(dst.Length, off, dstSkip, |src|, f.Width())
    requires state.Valid()
    modifies dst, state, state.e, rand
    ensures state.Valid()
    ensures Effect(dst[..], state.Value(rand)) ==
            ShapedEffect(old(dst[..]), off, dstSkip, f, bigEndian, old(state.Value(rand)), src)
  {
    var rm1, idx := ShapeSamples(f, dst, off, src, dstSkip, state.rm1, state.idx, state.e, rand, bigEndian);
    state.rm1 := rm1;
    state.idx := idx;
  }

  /** The shaping loop, with the noise and the index in local variables. */
  method ShapeSamples(f: Format, dst: array<byte>, off: nat, src: seq<real>, dstSkip: nat, rm1: real, idx: int,
                      e: array<real>, rand: FastRand, bigEndian: bool) returns (rm1': real, idx': int)
    requires Fits(dst.Length, off, dstSkip, |src|, f.Width()) && 0 <= idx < DITHER_BUF_SIZE == e.Length
    modifies dst, e, rand
    ensures var done := ShapedEffect(old(dst[..]), off, dstSkip, f, bigEndian,
                                     old(Shaper(rm1, rand.seed, idx, e[..])), src);
      dst[..] == done.bytes && Shaper(rm1', rand.seed, idx', e[..]) == done.state
  {
    rm1', idx' := rm1, idx;
    var d, s := off, 0;
    ghost var before, initial := dst[..], Shaper(rm1, rand.seed, idx, e[..]);
    ghost var done := ShapedEffect(before, off, dstSkip, f, bigEndian, initial, []);
    PosAdvances(off, dstSkip, 0);
    while s < |src|
      invariant 0 <= s <= |src| && d == Pos(off, dstSkip, s)
      invariant Fits(dst.Length, off, dstSkip, s, f.Width())
      invariant done == ShapedEffect(before, off, dstSkip, f, bigEndian, initial, src[..s])
      invariant dst[..] == done.bytes && Shaper(rm1', rand.seed, idx', e[..]) == done.state
    {
      ShapedEffectAdvances(before, off, dstSkip, f, bigEndian, initial, src, s);
      done := ShapedEffect(before, off, dstSkip, f, bigEndian, initial, src[..s + 1]);
      rm1', idx' := ShapeAndStore(f, dst, d, src[s], rm1', idx', e, rand, bigEndian);
      d := d + dstSkip;
      s := s + 1;
    }
    assert src[..s] == src;
  }

  /** The body of the shaping loop. */
  method ShapeAndStore(f: Format, dst: array<byte>, d: nat, sample: real, rm1: real, idx: int, e: array<real>,
                       rand: FastRand, bigEndian: bool) returns (rm1': real, idx': int)
    requires 0 <= idx < DITHER_BUF_SIZE == e.Length && d + f.Width() <= dst.Length
    modifies dst, e, rand
    ensures var s := old(Shaper(rm1, rand.seed, idx, e[..]));
      && Shaper(rm1', rand.seed, idx', e[..]) == s.Next(sample)
      && dst[..] == Put(old(dst[..]), d, PackScaled(f, s.Output(sample), bigEndian))
  {
    var y;
    rm1', idx', y := ShapeOne(sample, rm1, idx, e, rand);
    StorePacket(dst, d, PackScaled(f, y, bigEndian));
  }

  /** The body up to the store. */
  method ShapeOne(sample: real, rm1: real, idx: int, e: array<real>, rand: FastRand)
    returns (rm1': real, idx': int, y: int)
    requires 0 <= idx < DITHER_BUF_SIZE == e.Length
    modifies e, rand
    ensures var s := old(Shaper(rm1, rand.seed, idx, e[..]));
      y == s.Output(sample) && Shaper(rm1', rand.seed, idx', e[..]) == s.Next(sample)
  {
    var x := sample * SAMPLE_MAX_16BIT;
    var random := rand.Next();
    var r := Noise(random);
    var xe := x
      - e[idx] * 2.033
      + e[Back(idx, 1)] * 2.165
      - e[Back(idx, 2)] * 1.959
      + e[Back(idx, 3)] * 1.590
      - e[Back(idx, 4)] * 0.6149;
    var xp := xe + r - rm1;
    rm1' := r;
    y := Round(xp);
    idx' := Back(idx, -1);
    e[idx'] := y as real - xe;
  }

  // ---------- reading back ----------

  /** Where samples do not overlap, loading a channel that a run was stored to gives, at each place,
      the run's value as a fraction, cut off at the ends of the range. */
  lemma StoredReadsBack<S>(buf: seq<byte>, off: nat, skip: nat, f: Format, bigEndian: bool, t: Run<S, int>, i: nat)
    requires Fits(|buf|, off, skip, |t.outs|, f.Width()) && f.Width() <= skip && i < |t.outs|
    ensures var after := Stored(buf, off, skip, f, bigEndian, t);
      ReadsBack(f, t.outs[i], LoadAll(f, after, off, skip, |t.outs|, bigEndian)[i])
  {
    var after := Stored(buf, off, skip, f, bigEndian, t);
    PutAllAt(buf, off, skip, f.Width(), PackAll(f, t.outs, bigEndian), i);
    LoadAllAt(f, after, off, skip, |t.outs|, bigEndian, i);
    PackedReadsBack(f, t.outs[i], bigEndian);
  }

  /** So it is after either conversion: what is read back is the run's values. */
  lemma TriReadsBack(buf: seq<byte>, off: nat, skip: nat, f: Format, bigEndian: bool, s: Tri, xs: seq<real>, i: nat)
    requires Fits(|buf|, off, skip, |xs|, f.Width()) && f.Width() <= skip && i < |xs|
    ensures var after := TriEffect(buf, off, skip, f, bigEndian, s, xs).bytes;
      |after| == |buf| &&
      ReadsBack(f, TriAll(s, xs).outs[i], LoadAll(f, after, off, skip, |xs|, bigEndian)[i])
  {
    StoredReadsBack(buf, off, skip, f, bigEndian, TriAll(s, xs), i);
  }

  lemma ShapedReadsBack(buf: seq<byte>, off: nat, skip: nat, f: Format, bigEndian: bool, s: Shaping, xs: seq<real>,
                        i: nat)
    requires Fits(|buf|, off, skip, |xs|, f.Width()) && f.Width() <= skip && i < |xs|
    ensures var after := ShapedEffect(buf, off, skip, f, bigEndian, s, xs).bytes;
      |after| == |buf| &&
      ReadsBack(f, ShapeAll(s, xs).outs[i], LoadAll(f, after, off, skip, |xs|, bigEndian)[i])
  {
    StoredReadsBack<Shaping>(buf, off, skip, f, bigEndian, ShapeAll(s, xs), i);
  }

  // ---------- two calls and one ----------

  /** What a call leaves behind: the buffer and the state. */
  datatype Effect<+S> = Effect(bytes: seq<byte>, state: S)

  function TriEffect(buf: seq<byte>, off: nat, skip: nat, f: Format, bigEndian: bool, s: Tri,
                     xs: seq<real>): Effect<Tri>
    requires Fits(|buf|, off, skip, |xs|, f.Width())
  {
    Effect(Stored(buf, off, skip, f, bigEndian, TriAll(s, xs)), TriAll(s, xs).state)
  }

  function ShapedEffect(buf: seq<byte>, off: nat, skip: nat, f: Format, bigEndian: bool, s: Shaping, xs: seq<real>)
    : Effect<Shaping>
    requires Fits(|buf|, off, skip, |xs|, f.Width())
  {
    Effect(Stored(buf, off, skip, f, bigEndian, ShapeAll(s, xs)), ShapeAll(s, xs).state)
  }

  lemma StoredJoins<S>(buf: seq<byte>, off: nat, skip: nat, f: Format, bigEndian: bool, t: Run<S, int>, u: Run<S, int>)
    requires Fits(|buf|, off, skip, |t.outs| + |u.outs|, f.Width())
    ensures Fits(|buf|, off, skip, |t.outs|, f.Width())
    ensures Fits(|buf|, Pos(off, skip, |t.outs|), skip, |u.outs|, f.Width())
    ensures Stored(Stored(buf, off, skip, f, bigEndian, t), Pos(off, skip, |t.outs|), skip, f, bigEndian, u) ==
            Stored(buf, off, skip, f, bigEndian, Run(u.state, t.outs + u.outs))
  {
    BytesIgnoreBlocks(f, buf, off, skip, t.outs, u.outs, bigEndian);
  }

  /** A second call from where the first stopped, in the buffer and in the samples, completes what
      one call over all samples does. */
  lemma TriCallsJoin(buf: seq<byte>, off: nat, skip: nat, f: Format, bigEndian: bool, s: Tri, a: seq<real>,
                     b: seq<real>)
    requires Fits(|buf|, off, skip, |a| + |b|, f.Width())
    ensures Fits(|buf|, off, skip, |a|, f.Width()) && Fits(|buf|, Pos(off, skip, |a|), skip, |b|, f.Width())
    ensures var e := TriEffect(buf, off, skip, f, bigEndian, s, a);
      |e.bytes| == |buf| &&
      TriEffect(e.bytes, Pos(off, skip, |a|), skip, f, bigEndian, e.state, b) ==
      TriEffect(buf, off, skip, f, bigEndian, s, a + b)
  {
    TriRunSplits(s, a, b);
    var t := TriAll(s, a);
    StoredJoins(buf, off, skip, f, bigEndian, t, TriAll(t.state, b));
  }

  /** The same for the shaped conversion, whose state includes the error buffer and its index. */
  lemma ShapedCallsJoin(buf: seq<byte>, off: nat, skip: nat, f: Format, bigEndian: bool, s: Shaping, a: seq<real>,
                        b: seq<real>)
    requires Fits(|buf|, off, skip, |a| + |b|, f.Width())
    ensures Fits(|buf|, off, skip, |a|, f.Width()) && Fits(|buf|, Pos(off, skip, |a|), skip, |b|, f.Width())
    ensures var e := ShapedEffect(buf, off, skip, f, bigEndian, s, a);
      |e.bytes| == |buf| &&
      ShapedEffect(e.bytes, Pos(off, skip, |a|), skip, f, bigEndian, e.state, b) ==
      ShapedEffect(buf, off, skip, f, bigEndian, s, a + b)
  {
    ShapedRunSplits(s, a, b);
    var t := ShapeAll(s, a);
    StoredJoins<Shaping>(buf, off, skip, f, bigEndian, t, ShapeAll(t.state, b));
  }

  /** Two calls of the triangular conversion leave the buffer, the state and the seed that one call
      over all samples leaves. */
  method MoveDitherTriTwice(f: Format, dst: array<byte>, off: nat, a: seq<real>, b: seq<real>, dstSkip: nat,
                            state: DitherState, rand: FastRand, bigEndian: bool)
    requires Fits(dst.Length, off, dstSkip, |a| + |b|, f.Width())
    modifies dst, state`rm1, rand
    ensures Effect(dst[..], Tri(state.rm1, rand.seed)) ==
            TriEffect(old(dst[..]), off, dstSkip, f, bigEndian, old(Tri(state.rm1, rand.seed)), a + b)
  {
    TriCallsJoin(dst[..], off, dstSkip, f, bigEndian, Tri(state.rm1, rand.seed), a, b);
    MoveDitherTri(f, dst, off, a, dstSkip, state, rand, bigEndian);
    MoveDitherTri(f, dst, Pos(off, dstSkip, |a|), b, dstSkip, state, rand, bigEndian);
  }

  method MoveDitherShapedTwice(f: Format, dst: array<byte>, off: nat, a: seq<real>, b: seq<real>, dstSkip: nat,
                               state: DitherState, rand: FastRand, bigEndian: bool)
    requires Fits(dst.Length, off, dstSkip, |a| + |b|, f.Width()) && state.Valid()
    modifies dst, state, state.e, rand
    ensures state.Valid()
    ensures Effect(dst[..], state.Value(rand)) ==
            ShapedEffect(old(dst[..]), off, dstSkip, f, bigEndian, old(state.Value(rand)), a + b)
  {
    ShapedCallsJoin(dst[..], off, dstSkip, f, bigEndian, state.Value(rand), a, b);
    MoveDitherShaped(f, dst, off, a, dstSkip, state, rand, bigEndian);
    MoveDitherShaped(f, dst, Pos(off, dstSkip, |a|), b, dstSkip, state, rand, bigEndian);
  }
}
