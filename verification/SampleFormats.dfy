/** The packed sample formats of memops.c: integers as bytes, saturation, rounding, and strided
    storing and loading. Floating-point values are taken as real numbers. */
module SampleFormats {
  import opened Bits
  import opened RingBuffers
  import opened Rounding

  const SAMPLE_MAX_24BIT := 8388608.0
  const SAMPLE_MAX_16BIT := 32768.0
  const INT_MAX := 2147483647
  const INT_MIN := -2147483648
  const SHRT_MAX := 32767
  const SHRT_MIN := -32768

  /** 16-bit samples, packed 24-bit samples, and 24-bit samples in the top of 32 bits. */
  datatype Format = S16 | S24 | S32u24 {
    function Width(): nat {
      match this
      case S16 => 2
      case S24 => 3
      case S32u24 => 4
    }

    function Highest(): int {
      match this
      case S16 => SHRT_MAX
      case S24 => INT_MAX / 256
      case S32u24 => INT_MAX
    }

    function Lowest(): int {
      match this
      case S16 => SHRT_MIN
      case S24 => INT_MIN / 256
      case S32u24 => INT_MIN
    }

    /** Saturation at the ends of the format's range. */
    function Saturate(y: int): (v: int)
      ensures Lowest() <= v <= Highest()
    {
      if y > Highest() then Highest() else if y < Lowest() then Lowest() else y
    }
  }

  /** An integer's low bytes, lowest first. */
  function LowBytes(v: int, count: nat): (s: seq<byte>)
    ensures |s| == count
    decreases count
  {
    if count == 0 then [] else [(v % 256) as byte] + LowBytes(v / 256, count - 1)
  }

  /** The signed integer in two's complement with these bytes, lowest first. */
  function Signed(s: seq<byte>): int
    requires |s| > 0
  {
    var b := s[0] as int;
    if |s| > 1 then b + 256 * Signed(s[1..]) else if b < 128 then b else b - 256
  }

  function Reverse(s: seq<byte>): (r: seq<byte>)
    ensures |r| == |s|
  {
    if s == [] then [] else Reverse(s[1..]) + [s[0]]
  }

  /** An integer as stored in memory by a machine of either byte order. */
  function Pack(v: int, count: nat, bigEndian: bool): (s: seq<byte>)
    ensures |s| == count
  {
    if bigEndian then Reverse(LowBytes(v, count)) else LowBytes(v, count)
  }

  function Unpack(s: seq<byte>, bigEndian: bool): int
    requires |s| > 0
  {
    Signed(if bigEndian then Reverse(s) else s)
  }

  lemma {:induction false} LowBytesOfSigned(s: seq<byte>)
    requires |s| > 0
    ensures LowBytes(Signed(s), |s|) == s
  {
    var b := s[0] as int;
    if |s| > 1 {
      LowBytesOfSigned(s[1..]);
      LowestByte(b, Signed(s[1..]), |s| - 1);
    } else {
      LowestByte(b, if b < 128 then 0 else -1, 0);
    }
  }

  /** A number made of a byte and the rest has that byte first. */
  lemma LowestByte(b: int, rest: int, count: nat)
    requires 0 <= b < 256
    ensures (b + 256 * rest) % 256 == b && (b + 256 * rest) / 256 == rest
    ensures LowBytes(b + 256 * rest, count + 1) == [b as byte] + LowBytes(rest, count)
  {}

  /** An integer in range is the one its low bytes stand for. */
  lemma {:induction false} SignedOfLowBytes(v: int, count: nat)
    requires count > 0 && -HalfRange(count) <= v < HalfRange(count)
    ensures Signed(LowBytes(v, count)) == v
    decreases count
  {
    if count > 1 {
      SignedOfLowBytes(v / 256, count - 1);
      assert LowBytes(v, count)[1..] == LowBytes(v / 256, count - 1);
    }
  }

  /** Half the number of values that `count` bytes can stand for. */
  function HalfRange(count: nat): int {
    if count <= 1 then 128 else 256 * HalfRange(count - 1)
  }

  lemma {:induction false} SignedBounds(s: seq<byte>)
    requires |s| > 0
    ensures -HalfRange(|s|) <= Signed(s) < HalfRange(|s|)
  {
    if |s| > 1 {
      SignedBounds(s[1..]);
    }
  }

  lemma {:induction false} ReverseAt(s: seq<byte>, i: nat)
    requires i < |s|
    ensures Reverse(s)[i] == s[|s| - 1 - i]
  {
    if i < |s| - 1 {
      ReverseAt(s[1..], i);
    }
  }

  lemma ReverseTwice(s: seq<byte>)
    ensures Reverse(Reverse(s)) == s
  {
    forall i | 0 <= i < |s|
      ensures Reverse(Reverse(s))[i] == s[i]
    {
      ReverseAt(Reverse(s), i);
      ReverseAt(s, |s| - 1 - i);
    }
  }

  lemma PackOfUnpack(s: seq<byte>, bigEndian: bool)
    requires |s| > 0
    ensures Pack(Unpack(s, bigEndian), |s|, bigEndian) == s
  {
    LowBytesOfSigned(if bigEndian then Reverse(s) else s);
    ReverseTwice(s);
  }

  lemma UnpackOfPack(v: int, count: nat, bigEndian: bool)
    requires count > 0 && -HalfRange(count) <= v < HalfRange(count)
    ensures Unpack(Pack(v, count, bigEndian), bigEndian) == v
  {
    SignedOfLowBytes(v, count);
    ReverseTwice(LowBytes(v, count));
  }

  lemma HalfRanges()
    ensures HalfRange(2) == 32768 && HalfRange(3) == 8388608 && HalfRange(4) == 2147483648
  {
    assert HalfRange(3) == 256 * HalfRange(2) && HalfRange(4) == 256 * HalfRange(3);
  }

  /** Every bit pattern of a format stands for a value in the format's range. */
  lemma UnpackInRange(f: Format, s: seq<byte>, bigEndian: bool)
    requires |s| == f.Width()
    ensures f.Lowest() <= Unpack(s, bigEndian) <= f.Highest()
  {
    SignedBounds(if bigEndian then Reverse(s) else s);
    HalfRanges();
  }

  /** Steps a float of 1 is worth. */
  function Steps(f: Format): real {
    if f.S16? then SAMPLE_MAX_16BIT else SAMPLE_MAX_24BIT
  }

  /** A float in whole steps: rounded for 16-bit samples and cast for the others. */
  function InSteps(f: Format, x: real): int {
    if f.S16? then Round(x * Steps(f)) else Truncate(x * Steps(f))
  }

  /** The integer stored for a number of steps. */
  function StoredSteps(f: Format, y: int): (v: int)
    ensures f.Lowest() <= v <= f.Highest()
  {
    f.Saturate(if f.S32u24? then y * 256 else y)
  }

  /** What the undithered conversions store for a sample. */
  function Encode(f: Format, x: real, bigEndian: bool): (s: seq<byte>)
    ensures |s| == f.Width()
  {
    Pack(StoredSteps(f, InSteps(f, x)), f.Width(), bigEndian)
  }

  /** The steps that a stored integer stands for. */
  function StepsOf(f: Format, v: int): int {
    if f.S32u24? then v / 256 else v
  }

  /** What the conversions to float read from a sample. */
  function Decode(f: Format, s: seq<byte>, bigEndian: bool): real
    requires |s| == f.Width()
  {
    StepsOf(f, Unpack(s, bigEndian)) as real / Steps(f)
  }

  /** The bytes of a 32-bit sample without the eight bits that no float carries. */
  function WithoutLowByte(f: Format, s: seq<byte>, bigEndian: bool): seq<byte>
    requires |s| == f.Width()
  {
    if !f.S32u24? then s else if bigEndian then s[..3] + [0] else [0] + s[1..]
  }

  lemma TruncateOfInt(v: int)
    ensures Truncate(v as real) == v && Round(v as real) == v
  {}

  lemma LowByteCleared(s: seq<byte>)
    requires |s| == 4
    ensures LowBytes(Signed(s) / 256 * 256, 4) == [0] + s[1..]
  {
    var high := Signed(s[1..]);
    LowBytesOfSigned(s[1..]);
    assert Signed(s) == s[0] as int + 256 * high;
    assert Signed(s) / 256 == high;
    LowBytesOfMultiple(high, 3);
  }

  lemma LowBytesOfMultiple(v: int, count: nat)
    ensures LowBytes(v * 256, count + 1) == [0] + LowBytes(v, count)
  {
    assert v * 256 % 256 == 0 && v * 256 / 256 == v;
  }

  lemma ReverseEnds(s: seq<byte>, t: seq<byte>)
    requires |s| == 4 && t == Reverse(s)
    ensures Reverse([0] + t[1..]) == s[..3] + [0]
  {
    ReverseTwice(s);
    var u := [0] + t[1..];
    forall i | 0 <= i < 4
      ensures Reverse(u)[i] == (s[..3] + [0])[i]
    {
      ReverseAt(u, i);
      ReverseAt(s, 3 - i);
    }
  }

  lemma TimesSteps(f: Format, n: int)
    ensures n as real / Steps(f) * Steps(f) == n as real
  {}

  lemma EncodeOfSteps(f: Format, n: int, bigEndian: bool)
    ensures Encode(f, n as real / Steps(f), bigEndian) == Pack(StoredSteps(f, n), f.Width(), bigEndian)
  {
    TimesSteps(f, n);
    TruncateOfInt(n);
    assert InSteps(f, n as real / Steps(f)) == n;
  }

  /** The low byte of a 32-bit sample is cleared when its steps are stored again. */
  lemma PackOfSteps32(s: seq<byte>, bigEndian: bool)
    requires |s| == 4
    ensures Pack(Unpack(s, bigEndian) / 256 * 256, 4, bigEndian) == WithoutLowByte(S32u24, s, bigEndian)
  {
    var t := if bigEndian then Reverse(s) else s;
    LowByteCleared(t);
    if bigEndian {
      ReverseEnds(s, t);
    }
  }

  /** Converting any sample to float and back restores it, but for the low byte of a 32-bit one. */
  lemma EncodeOfDecode(f: Format, s: seq<byte>, bigEndian: bool)
    requires |s| == f.Width()
    ensures Encode(f, Decode(f, s, bigEndian), bigEndian) == WithoutLowByte(f, s, bigEndian)
  {
    var v := Unpack(s, bigEndian);
    UnpackInRange(f, s, bigEndian);
    EncodeOfSteps(f, StepsOf(f, v), bigEndian);
    if f.S32u24? {
      PackOfSteps32(s, bigEndian);
    } else {
      PackOfUnpack(s, bigEndian);
    }
  }

  /** A number of steps cut off at the ends of the format's range. */
  function CutOff(f: Format, y: int): int {
    var top := if f.S16? then SHRT_MAX else INT_MAX / 256;
    if y > top then top else if y < -top - 1 then -top - 1 else y
  }

  lemma RangesFit(f: Format)
    ensures -HalfRange(f.Width()) == f.Lowest() && f.Highest() < HalfRange(f.Width())
  {
    HalfRanges();
  }

  /** Storing a number of steps and reading it back cuts it off and does nothing else. */
  lemma DecodeIsCutOff(f: Format, x: real, bigEndian: bool)
    ensures Decode(f, Encode(f, x, bigEndian), bigEndian) == CutOff(f, InSteps(f, x)) as real / Steps(f)
  {
    var y := InSteps(f, x);
    RangesFit(f);
    UnpackOfPack(StoredSteps(f, y), f.Width(), bigEndian);
    StoredStepsCutOff(f, y);
  }

  lemma StoredStepsCutOff(f: Format, y: int)
    ensures CutOff(f, y) == StepsOf(f, StoredSteps(f, y))
  {}

  /** A number of steps v for a float that is exactly y steps: less than a step off inside the
      range (at most half a step for 16-bit samples, up to the last half step), and the end of the
      range outside it. */
  predicate Near(f: Format, v: real, y: real) {
    && (y >= Steps(f) ==> v == Steps(f) - 1.0)
    && (y <= -Steps(f) ==> v == -Steps(f))
    && (-Steps(f) <= y < Steps(f) ==> -1.0 < v - y < 1.0)
    && (f.S16? && -Steps(f) <= y <= 32767.5 ==> -0.5 <= v - y <= 0.5)
  }

  lemma CutOffIsNear(f: Format, x: real)
    ensures Near(f, CutOff(f, InSteps(f, x)) as real, x * Steps(f))
  {
    match f
    case S16 =>
    case _ =>
  }

  /** Converting any float, inside the range or not, to a sample and back gives its nearest steps. */
  lemma DecodeOfEncode(f: Format, x: real, bigEndian: bool)
    ensures Near(f, Decode(f, Encode(f, x, bigEndian), bigEndian) * Steps(f), x * Steps(f))
  {
    CutOffIsNear(f, x);
    DecodeIsCutOff(f, x, bigEndian);
    TimesSteps(f, CutOff(f, InSteps(f, x)));
  }

  /** Where samples are cast, they are cut towards zero. */
  lemma CastsTowardsZero(f: Format, x: real, bigEndian: bool)
    requires !f.S16? && -1.0 < x < 1.0
    ensures var v, y := Decode(f, Encode(f, x, bigEndian), bigEndian) * Steps(f), x * 8388608.0;
      && (x >= 0.0 ==> 0.0 <= v <= y < v + 1.0)
      && (x <= 0.0 ==> v - 1.0 < y <= v <= 0.0)
  {
    DecodeIsCutOff(f, x, bigEndian);
    TimesSteps(f, CutOff(f, InSteps(f, x)));
    CutTowardsZero(f, x);
  }

  lemma CutTowardsZero(f: Format, x: real)
    requires !f.S16? && -1.0 < x < 1.0
    ensures var v, y := CutOff(f, InSteps(f, x)) as real, x * 8388608.0;
      && (x >= 0.0 ==> 0.0 <= v <= y < v + 1.0)
      && (x <= 0.0 ==> v - 1.0 < y <= v <= 0.0)
  {}

  function Limited(y: int, low: int, high: int): int {
    if y > high then high else if y < low then low else y
  }

  /** The integer in the bytes of an undithered sample. */
  lemma EncodedInteger(f: Format, x: real, bigEndian: bool)
    ensures Unpack(Encode(f, x, bigEndian), bigEndian) ==
            match f
            case S16 => Limited(Round(x * 32768.0), -32768, 32767)
            case S24 => Limited(Truncate(x * 8388608.0), -8388608, 8388607)
            case S32u24 => Limited(Truncate(x * 8388608.0) * 256, -2147483648, 2147483647)
  {
    RangesFit(f);
    UnpackOfPack(StoredSteps(f, InSteps(f, x)), f.Width(), bigEndian);
  }

  // ---------- the order of bytes ----------

  function PowerOf256(i: nat): (p: int)
    ensures p > 0
  {
    if i == 0 then 1 else 256 * PowerOf256(i - 1)
  }

  lemma DivideTwice(v: int, p: int)
    requires p > 0
    ensures v / 256 / p == v / (256 * p) && 256 * p > 0
  {
    var q, r := v / 256, v % 256;
    var q2, r2 := q / p, q % p;
    assert q == q2 * p + r2 && v == 256 * q + r;
    MulDoubleOf(q2, p);
    ModUnique(v, 256 * p, q2, 256 * r2 + r);
  }

  lemma MulDoubleOf(q: int, p: int)
    ensures 256 * (q * p) == q * (256 * p)
  {}

  lemma {:induction false} LowByteAt(v: int, count: nat, i: nat, p: int)
    requires i < count && p == PowerOf256(i)
    ensures p > 0 && LowBytes(v, count)[i] as int == v / p % 256
    decreases i
  {
    if i > 0 {
      var p' := PowerOf256(i - 1);
      LowByteAt(v / 256, count - 1, i - 1, p');
      DivideTwice(v, p');
      assert v / p == v / 256 / p';
    }
  }

  /** Byte i of an integer, counted from the lowest, lies at place i on a little-endian machine and
      at the i-th place from the end on a big-endian one. */
  lemma PackedByteAt(v: int, count: nat, i: nat)
    requires i < count
    ensures Pack(v, count, false)[i] as int == v / PowerOf256(i) % 256
    ensures Pack(v, count, true)[count - 1 - i] as int == v / PowerOf256(i) % 256
  {
    LowByteAt(v, count, i, PowerOf256(i));
    ReverseAt(LowBytes(v, count), count - 1 - i);
  }
}

/** Samples of one channel, laid out in a buffer every `skip` bytes from `off` on. */
module StridedSamples {
  import opened Bits
  import opened RingBuffers
  import opened SampleFormats

  /** Where the pointer is after i samples. */
  function Pos(off: nat, skip: nat, i: nat): nat {
    off + i * skip
  }

  predicate Fits(length: nat, off: nat, skip: nat, count: nat, width: nat) {
    count > 0 ==> Pos(off, skip, count - 1) + width <= length
  }

  lemma PosAdvances(off: nat, skip: nat, i: nat)
    ensures Pos(off, skip, i + 1) == Pos(off, skip, i) + skip
    ensures Pos(off, skip, 0) == off
  {
    Distribute(i, 1, skip);
  }

  lemma PosOrdered(off: nat, skip: nat, i: nat, k: nat)
    requires i < k
    ensures Pos(off, skip, i) + skip <= Pos(off, skip, k)
  {
    Distribute(k, i, skip);
    MulBound(k - i, skip);
  }

  lemma FitsFewer(length: nat, off: nat, skip: nat, count: nat, fewer: nat, width: nat)
    requires Fits(length, off, skip, count, width) && fewer <= count
    ensures Fits(length, off, skip, fewer, width)
  {
    if 0 < fewer < count {
      PosOrdered(off, skip, fewer - 1, count - 1);
    }
  }

  lemma PosShifted(off: nat, skip: nat, a: nat, n: nat)
    ensures Pos(Pos(off, skip, a), skip, n) == Pos(off, skip, a + n)
  {
    Distribute(a, n, skip);
  }

  lemma FitsShifted(length: nat, off: nat, skip: nat, a: nat, b: nat, width: nat)
    requires Fits(length, off, skip, a + b, width)
    ensures Fits(length, Pos(off, skip, a), skip, b, width)
  {
    if b > 0 {
      PosShifted(off, skip, a, b - 1);
    }
  }

  /** The buffer with a packet stored at a position. */
  function Put(buf: seq<byte>, pos: nat, packet: seq<byte>): (b: seq<byte>)
    requires pos + |packet| <= |buf|
    ensures |b| == |buf|
  {
    buf[..pos] + packet + buf[pos + |packet|..]
  }

  predicate Uniform(packets: seq<seq<byte>>, width: nat) {
    forall i | 0 <= i < |packets| :: |packets[i]| == width
  }

  /** The buffer with the packets stored one after the other, each `skip` bytes further on. */
  function PutAll(buf: seq<byte>, off: nat, skip: nat, width: nat, packets: seq<seq<byte>>): (b: seq<byte>)
    requires Uniform(packets, width) && Fits(|buf|, off, skip, |packets|, width)
    ensures |b| == |buf|
    decreases |packets|
  {
    if packets == [] then buf
    else
      var n := |packets| - 1;
      FitsFewer(|buf|, off, skip, |packets|, n, width);
      Put(PutAll(buf, off, skip, width, packets[..n]), Pos(off, skip, n), packets[n])
  }

  function Window(buf: seq<byte>, off: nat, skip: nat, width: nat, i: nat): seq<byte>
    requires Pos(off, skip, i) + width <= |buf|
  {
    buf[Pos(off, skip, i)..Pos(off, skip, i) + width]
  }

  function EncodeAll(f: Format, samples: seq<real>, bigEndian: bool): (packets: seq<seq<byte>>)
    ensures |packets| == |samples| && Uniform(packets, f.Width())
    ensures forall i | 0 <= i < |samples| :: packets[i] == Encode(f, samples[i], bigEndian)
  {
    seq(|samples|, i requires 0 <= i < |samples| => Encode(f, samples[i], bigEndian))
  }

  function LoadAll(f: Format, buf: seq<byte>, off: nat, skip: nat, count: nat, bigEndian: bool): (samples: seq<real>)
    requires Fits(|buf|, off, skip, count, f.Width())
    ensures |samples| == count
    decreases count
  {
    if count == 0 then []
    else
      FitsFewer(|buf|, off, skip, count, count - 1, f.Width());
      LoadAll(f, buf, off, skip, count - 1, bigEndian)
        + [Decode(f, Window(buf, off, skip, f.Width(), count - 1), bigEndian)]
  }

  /** A byte outside every stored packet keeps its value: other channels are not touched. */
  lemma {:induction false} PutAllFrame(buf: seq<byte>, off: nat, skip: nat, width: nat, packets: seq<seq<byte>>, p: nat)
    requires Uniform(packets, width) && Fits(|buf|, off, skip, |packets|, width) && p < |buf|
    requires forall i: nat | i < |packets| :: !(Pos(off, skip, i) <= p < Pos(off, skip, i) + width)
    ensures PutAll(buf, off, skip, width, packets)[p] == buf[p]
    decreases |packets|
  {
    if packets != [] {
      var n := |packets| - 1;
      FitsFewer(|buf|, off, skip, |packets|, n, width);
      PutAllFrame(buf, off, skip, width, packets[..n], p);
      assert !(Pos(off, skip, n) <= p < Pos(off, skip, n) + width);
    }
  }

  /** Where packets do not overlap, each one is found where it was stored. */
  lemma {:induction false} PutAllAt(buf: seq<byte>, off: nat, skip: nat, width: nat, packets: seq<seq<byte>>, i: nat)
    requires Uniform(packets, width) && Fits(|buf|, off, skip, |packets|, width)
    requires width <= skip && i < |packets|
    ensures Pos(off, skip, i) + width <= |buf|
    ensures Window(PutAll(buf, off, skip, width, packets), off, skip, width, i) == packets[i]
    decreases |packets|
  {
    var n := |packets| - 1;
    FitsFewer(|buf|, off, skip, |packets|, n, width);
    if i < n {
      PutAllAt(buf, off, skip, width, packets[..n], i);
      PosOrdered(off, skip, i, n);
      var before := PutAll(buf, off, skip, width, packets[..n]);
      assert Window(Put(before, Pos(off, skip, n), packets[n]), off, skip, width, i) ==
          Window(before, off, skip, width, i);
    }
  }

  /** The next packet is stored behind the others. */
  lemma PutAllAdvances(buf: seq<byte>, off: nat, skip: nat, width: nat, packets: seq<seq<byte>>, k: nat)
    requires Uniform(packets, width) && Fits(|buf|, off, skip, |packets|, width) && k < |packets|
    ensures Fits(|buf|, off, skip, k, width) && Fits(|buf|, off, skip, k + 1, width)
    ensures Pos(off, skip, k) + width <= |buf| && Pos(off, skip, k + 1) == Pos(off, skip, k) + skip
    ensures PutAll(buf, off, skip, width, packets[..k + 1]) ==
            Put(PutAll(buf, off, skip, width, packets[..k]), Pos(off, skip, k), packets[k])
  {
    FitsFewer(|buf|, off, skip, |packets|, k, width);
    FitsFewer(|buf|, off, skip, |packets|, k + 1, width);
    PosAdvances(off, skip, k);
    assert packets[..k + 1][..k] == packets[..k];
  }

  /** Storing k packets and then the rest from where the first call stopped is storing them all. */
  lemma {:induction false} PutAllSplits(buf: seq<byte>, off: nat, skip: nat, width: nat, packets: seq<seq<byte>>,
                                        k: nat)
    requires Uniform(packets, width) && Fits(|buf|, off, skip, |packets|, width) && k <= |packets|
    ensures Fits(|buf|, off, skip, k, width) && Fits(|buf|, Pos(off, skip, k), skip, |packets| - k, width)
    ensures PutAll(buf, off, skip, width, packets) ==
            PutAll(PutAll(buf, off, skip, width, packets[..k]), Pos(off, skip, k), skip, width, packets[k..])
    decreases |packets|
  {
    FitsFewer(|buf|, off, skip, |packets|, k, width);
    FitsShifted(|buf|, off, skip, k, |packets| - k, width);
    if k == |packets| {
      assert packets[..k] == packets;
    } else {
      var n := |packets| - 1;
      FitsFewer(|buf|, off, skip, |packets|, n, width);
      PutAllSplits(buf, off, skip, width, packets[..n], k);
      assert packets[..n][..k] == packets[..k];
      assert packets[..n][k..] == packets[k..][..n - k];
      PosShifted(off, skip, k, n - k);
    }
  }

  lemma {:induction false} LoadAllAt(f: Format, buf: seq<byte>, off: nat, skip: nat, count: nat, bigEndian: bool,
                                     i: nat)
    requires Fits(|buf|, off, skip, count, f.Width()) && i < count
    ensures Pos(off, skip, i) + f.Width() <= |buf|
    ensures LoadAll(f, buf, off, skip, count, bigEndian)[i] ==
              Decode(f, Window(buf, off, skip, f.Width(), i), bigEndian)
    decreases count
  {
    if i < count - 1 {
      FitsFewer(|buf|, off, skip, count, count - 1, f.Width());
      LoadAllAt(f, buf, off, skip, count - 1, bigEndian, i);
    }
  }

  function Windows(buf: seq<byte>, off: nat, skip: nat, width: nat, count: nat): (packets: seq<seq<byte>>)
    requires Fits(|buf|, off, skip, count, width)
    ensures |packets| == count && Uniform(packets, width)
    decreases count
  {
    if count == 0 then []
    else
      FitsFewer(|buf|, off, skip, count, count - 1, width);
      Windows(buf, off, skip, width, count - 1) + [Window(buf, off, skip, width, count - 1)]
  }

  /** Storing what is there changes nothing, even where packets overlap. */
  lemma {:induction false} PutWindows(buf: seq<byte>, off: nat, skip: nat, width: nat, count: nat)
    requires Fits(|buf|, off, skip, count, width)
    ensures PutAll(buf, off, skip, width, Windows(buf, off, skip, width, count)) == buf
    decreases count
  {
    if count > 0 {
      var n := count - 1;
      FitsFewer(|buf|, off, skip, count, n, width);
      PutWindows(buf, off, skip, width, n);
      var packets := Windows(buf, off, skip, width, count);
      assert packets[..n] == Windows(buf, off, skip, width, n);
      assert Put(buf, Pos(off, skip, n), Window(buf, off, skip, width, n)) == buf;
    }
  }

  lemma {:induction false} EncodeAllOfLoadAll(f: Format, buf: seq<byte>, off: nat, skip: nat, count: nat,
                                              bigEndian: bool)
    requires f != S32u24 && Fits(|buf|, off, skip, count, f.Width())
    ensures EncodeAll(f, LoadAll(f, buf, off, skip, count, bigEndian), bigEndian) ==
              Windows(buf, off, skip, f.Width(), count)
    decreases count
  {
    if count > 0 {
      var n := count - 1;
      FitsFewer(|buf|, off, skip, count, n, f.Width());
      EncodeAllOfLoadAll(f, buf, off, skip, n, bigEndian);
      EncodeOfDecode(f, Window(buf, off, skip, f.Width(), n), bigEndian);
    }
  }

  /** Loading a channel to float and storing it back restores every byte of the buffer, whatever
      the stride, for 16-bit and 24-bit samples. */
  lemma RoundTrip(f: Format, buf: seq<byte>, off: nat, skip: nat, count: nat, bigEndian: bool)
    requires f != S32u24 && Fits(|buf|, off, skip, count, f.Width())
    ensures PutAll(buf, off, skip, f.Width(),
                   EncodeAll(f, LoadAll(f, buf, off, skip, count, bigEndian), bigEndian)) == buf
  {
    EncodeAllOfLoadAll(f, buf, off, skip, count, bigEndian);
    PutWindows(buf, off, skip, f.Width(), count);
  }

  lemma SampleRoundTrip32(buf: seq<byte>, off: nat, skip: nat, count: nat, bigEndian: bool, i: nat)
    requires 4 <= skip && Fits(|buf|, off, skip, count, 4) && i < count
    ensures var samples := LoadAll(S32u24, buf, off, skip, count, bigEndian);
      var after := PutAll(buf, off, skip, 4, EncodeAll(S32u24, samples, bigEndian));
      && Pos(off, skip, i) + 4 <= |buf|
      && Window(after, off, skip, 4, i) == WithoutLowByte(S32u24, Window(buf, off, skip, 4, i), bigEndian)
  {
    var samples := LoadAll(S32u24, buf, off, skip, count, bigEndian);
    LoadAllAt(S32u24, buf, off, skip, count, bigEndian, i);
    PutAllAt(buf, off, skip, 4, EncodeAll(S32u24, samples, bigEndian), i);
    EncodeOfDecode(S32u24, Window(buf, off, skip, 4, i), bigEndian);
  }

  /** Where the low byte of a 32-bit sample is. */
  function LowPos(off: nat, skip: nat, i: nat, bigEndian: bool): nat {
    Pos(off, skip, i) + if bigEndian then 3 else 0
  }

  predicate IsLowByte(off: nat, skip: nat, count: nat, bigEndian: bool, p: nat) {
    exists i: nat :: i < count && p == LowPos(off, skip, i, bigEndian)
  }

  /** For 32-bit samples the round trip clears the low byte of each sample and changes no other
      byte of the buffer. */
  lemma RoundTrip32(buf: seq<byte>, off: nat, skip: nat, count: nat, bigEndian: bool)
    requires 4 <= skip && Fits(|buf|, off, skip, count, 4)
    ensures var samples := LoadAll(S32u24, buf, off, skip, count, bigEndian);
      var after := PutAll(buf, off, skip, 4, EncodeAll(S32u24, samples, bigEndian));
      && |after| == |buf|
      && forall p | 0 <= p < |buf| :: after[p] == if IsLowByte(off, skip, count, bigEndian, p) then 0 else buf[p]
  {
    forall p | 0 <= p < |buf|
      ensures var samples := LoadAll(S32u24, buf, off, skip, count, bigEndian);
        var after := PutAll(buf, off, skip, 4, EncodeAll(S32u24, samples, bigEndian));
        after[p] == if IsLowByte(off, skip, count, bigEndian, p) then 0 else buf[p]
    {
      ByteRoundTrip32(buf, off, skip, count, bigEndian, p);
    }
  }

  lemma ByteRoundTrip32(buf: seq<byte>, off: nat, skip: nat, count: nat, bigEndian: bool, p: nat)
    requires 4 <= skip && Fits(|buf|, off, skip, count, 4) && p < |buf|
    ensures var samples := LoadAll(S32u24, buf, off, skip, count, bigEndian);
      var after := PutAll(buf, off, skip, 4, EncodeAll(S32u24, samples, bigEndian));
      after[p] == if IsLowByte(off, skip, count, bigEndian, p) then 0 else buf[p]
  {
    var samples := LoadAll(S32u24, buf, off, skip, count, bigEndian);
    var packets := EncodeAll(S32u24, samples, bigEndian);
    if i: nat :| i < count && Pos(off, skip, i) <= p < Pos(off, skip, i) + 4 {
      SampleRoundTrip32(buf, off, skip, count, bigEndian, i);
      LowByteOfOne(off, skip, count, bigEndian, p, i);
      ClearedByte(buf, PutAll(buf, off, skip, 4, packets), off, skip, bigEndian, p, i);
    } else {
      PutAllFrame(buf, off, skip, 4, packets, p);
    }
  }

  lemma ClearedByte(before: seq<byte>, after: seq<byte>, off: nat, skip: nat, bigEndian: bool, p: nat, i: nat)
    requires Pos(off, skip, i) <= p < Pos(off, skip, i) + 4 <= |before| == |after|
    requires Window(after, off, skip, 4, i) == WithoutLowByte(S32u24, Window(before, off, skip, 4, i), bigEndian)
    ensures after[p] == if p == LowPos(off, skip, i, bigEndian) then 0 else before[p]
  {
    var k := p - Pos(off, skip, i);
    assert Window(after, off, skip, 4, i)[k] == after[p] && Window(before, off, skip, 4, i)[k] == before[p];
  }

  /** A byte of one sample is the low byte of that sample or of none. */
  lemma LowByteOfOne(off: nat, skip: nat, count: nat, bigEndian: bool, p: nat, i: nat)
    requires 4 <= skip && i < count && Pos(off, skip, i) <= p < Pos(off, skip, i) + 4
    ensures IsLowByte(off, skip, count, bigEndian, p) <==> p == LowPos(off, skip, i, bigEndian)
  {
    if IsLowByte(off, skip, count, bigEndian, p) {
      var k: nat :| k < count && p == LowPos(off, skip, k, bigEndian);
      if k < i {
        PosOrdered(off, skip, k, i);
      } else if i < k {
        PosOrdered(off, skip, i, k);
      }
    }
  }

  method StorePacket(dst: array<byte>, pos: nat, packet: seq<byte>)
    requires pos + |packet| <= dst.Length
    modifies dst
    ensures dst[..] == Put(old(dst[..]), pos, packet)
  {
    forall i | 0 <= i < |packet| {
      dst[pos + i] := packet[i];
    }
  }

  /** sample_move_d16_sS, sample_move_d24_sS and sample_move_d32u24_sS. */
  method MoveFromFloat(f: Format, dst: array<byte>, off: nat, src: seq<real>, dstSkip: nat, bigEndian: bool)
    requires Fits(dst.Length, off, dstSkip, |src|, f.Width())
    modifies dst
    ensures dst[..] == PutAll(old(dst[..]), off, dstSkip, f.Width(), EncodeAll(f, src, bigEndian))
  {
    var d, s := off, 0;
    ghost var packets := EncodeAll(f, src, bigEndian);
    PosAdvances(off, dstSkip, 0);
    while s < |src|
      invariant 0 <= s <= |src| && d == Pos(off, dstSkip, s)
      invariant Fits(dst.Length, off, dstSkip, s, f.Width())
      invariant dst[..] == PutAll(old(dst[..]), off, dstSkip, f.Width(), packets[..s])
    {
      PutAllAdvances(old(dst[..]), off, dstSkip, f.Width(), packets, s);
      StorePacket(dst, d, Encode(f, src[s], bigEndian));
      d := d + dstSkip;
      s := s + 1;
    }
    assert packets[..|src|] == packets;
  }

  method LoadPacket(f: Format, src: array<byte>, pos: nat, bigEndian: bool) returns (x: real)
    requires pos + f.Width() <= src.Length
    ensures x == Decode(f, src[..][pos..pos + f.Width()], bigEndian)
  {
    assert src[pos..pos + f.Width()] == src[..][pos..pos + f.Width()];
    x := Decode(f, src[pos..pos + f.Width()], bigEndian);
  }

  /** sample_move_dS_s16, sample_move_dS_s24 and sample_move_dS_s32u24. */
  method MoveToFloat(f: Format, dst: array<real>, src: array<byte>, off: nat, nsamples: nat, srcSkip: nat,
                     bigEndian: bool)
    requires Fits(src.Length, off, srcSkip, nsamples, f.Width()) && nsamples <= dst.Length
    modifies dst
    ensures dst[..] == LoadAll(f, src[..], off, srcSkip, nsamples, bigEndian) + old(dst[nsamples..])
  {
    var d, s := 0, off;
    ghost var buf := src[..];
    ghost var samples := LoadAll(f, buf, off, srcSkip, nsamples, bigEndian);
    PosAdvances(off, srcSkip, 0);
    while d < nsamples
      invariant 0 <= d <= nsamples && s == Pos(off, srcSkip, d)
      invariant forall i | 0 <= i < d :: dst[i] == samples[i]
      invariant forall i | d <= i < dst.Length :: dst[i] == old(dst[i])
    {
      LoadAllAt(f, buf, off, srcSkip, nsamples, bigEndian, d);
      PosAdvances(off, srcSkip, d);
      var x := LoadPacket(f, src, s, bigEndian);
      assert x == samples[d];
      dst[d] := x;
      d := d + 1;
      s := s + srcSkip;
    }
  }
}
