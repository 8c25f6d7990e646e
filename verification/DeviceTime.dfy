/** Sample time and host time in JackRouterDevice. Float64 values are taken as real numbers; the
    integer types wrap at their own widths. */
module TimeMath {
  import opened Bits
  import opened Rounding

  const UINT64 := 0x1_0000_0000_0000_0000
  const UINT32 := 0x1_0000_0000

  /** The device's conversion from host time: whole samples since the anchor. */
  function SampleOfHost(anchor: int, ticksPerFrame: real, host: int): int
    requires ticksPerFrame > 0.0
  {
    ((host - anchor) as real / ticksPerFrame).Floor
  }

  /** The device's conversion from sample time, in 64-bit arithmetic. */
  function HostOfSample(anchor: int, ticksPerFrame: real, sample: real): int {
    (anchor + (sample * ticksPerFrame).Floor % UINT64) % UINT64
  }

  lemma FloorBounds(x: real, n: int)
    ensures x.Floor >= n <==> x >= n as real
    ensures x.Floor == n <==> n as real <= x < n as real + 1.0
  {}

  lemma DivideLess(x: real, y: real, z: real)
    requires y > 0.0
    ensures x < z * y <==> x / y < z
    ensures x <= z * y <==> x / y <= z
  {
    var q := x / y;
    assert q * y == x;
    if q < z { MulLess(q, z, y); }
    if z < q { MulLess(z, q, y); }
  }

  lemma MulLess(a: real, b: real, y: real)
    requires y > 0.0 && a < b
    ensures a * y < b * y
  {
    assert (b - a) * y > 0.0;
  }

  lemma HostOfSampleExact(anchor: int, t: real, sample: real)
    requires 0 <= anchor && t > 0.0 && sample >= 0.0 && anchor as real + sample * t < UINT64 as real
    ensures HostOfSample(anchor, t, sample) == anchor + (sample * t).Floor
    ensures HostOfSample(anchor, t, sample) >= anchor
  {
    assert sample * t >= 0.0;
    var f := (sample * t).Floor;
    assert 0 <= f < UINT64 && anchor + f < UINT64;
  }

  /** Whole samples apart have different host times, if a frame is at least one tick. */
  lemma HostTimesDiffer(anchor: int, t: real, a: nat, b: nat, limit: int)
    requires 0 <= anchor && t >= 1.0 && a <= limit && b <= limit && anchor as real + limit as real * t < UINT64 as real
    ensures HostOfSample(anchor, t, a as real) == HostOfSample(anchor, t, b as real) <==> a == b
  {
    MulAtMost(a as real, limit as real, t);
    MulAtMost(b as real, limit as real, t);
    if a < b {
      HostTimeGrows(anchor, t, a, b);
    } else if b < a {
      HostTimeGrows(anchor, t, b, a);
    }
  }

  lemma HostTimeGrows(anchor: int, t: real, a: nat, b: nat)
    requires 0 <= anchor && t >= 1.0 && a < b && anchor as real + b as real * t < UINT64 as real
    ensures HostOfSample(anchor, t, a as real) < HostOfSample(anchor, t, b as real)
  {
    FrameApart(a as real, b as real, t);
    HostOfTicks(anchor, t, a as real, a as real * t);
    HostOfTicks(anchor, t, b as real, b as real * t);
  }

  lemma HostOfTicks(anchor: int, t: real, sample: real, ticks: real)
    requires 0 <= anchor && t > 0.0 && sample >= 0.0 && ticks == sample * t && anchor as real + ticks < UINT64 as real
    ensures HostOfSample(anchor, t, sample) == anchor + ticks.Floor
  {
    HostOfSampleExact(anchor, t, sample);
  }

  lemma FrameApart(a: real, b: real, t: real)
    requires t >= 1.0 && a + 1.0 <= b
    ensures a * t + 1.0 <= b * t && (a * t).Floor < (b * t).Floor
  {
    MulAtMost(a + 1.0, b, t);
    ScaleOff(a, t);
  }

  lemma MulAtMost(a: real, b: real, t: real)
    requires t > 0.0 && a <= b
    ensures a * t <= b * t
  {
    if a < b {
      MulLess(a, b, t);
    }
  }

  /** A whole number of samples converted to host time and back comes back as itself, or one
      less; and as itself exactly if it lies on a whole host tick. */
  lemma SampleHostSample(anchor: int, t: real, sample: nat)
    requires 0 <= anchor && t >= 1.0 && anchor as real + sample as real * t < UINT64 as real
    ensures var back := SampleOfHost(anchor, t, HostOfSample(anchor, t, sample as real));
      && (back == sample || back == sample - 1)
      && (back == sample <==> (sample as real * t).Floor as real == sample as real * t)
  {
    HostOfSampleExact(anchor, t, sample as real);
    var exact := sample as real * t;
    var host := HostOfSample(anchor, t, sample as real);
    assert host - anchor == exact.Floor;
    BackOrOneLess(exact, host - anchor, t, sample);
  }

  lemma BackOrOneLess(exact: real, f: int, t: real, sample: int)
    requires t >= 1.0 && exact == sample as real * t && f as real <= exact < f as real + 1.0
    ensures var back := (f as real / t).Floor;
      && (back == sample || back == sample - 1)
      && (back == sample <==> f as real == exact)
  {
    FloorAtLeast(f as real, t, sample - 1);
    FloorAtLeast(f as real, t, sample);
    FloorAtLeast(f as real, t, sample + 1);
    ScaleOff(sample as real, t);
  }

  lemma ScaleOff(x: real, t: real)
    ensures (x - 1.0) * t == x * t - t
    ensures (x + 1.0) * t == x * t + t
  {}

  lemma FloorAtLeast(x: real, t: real, n: int)
    requires t > 0.0
    ensures (x / t).Floor >= n <==> x >= n as real * t
  {
    DivideLess(x, t, n as real);
    FloorBounds(x / t, n);
  }

  /** A host time at or after the anchor converted to samples and back is never later, and
      earlier by less than one frame and one tick. */
  lemma HostSampleHost(anchor: int, t: real, host: int)
    requires 0 <= anchor <= host < UINT64 && t > 0.0
    ensures var back := HostOfSample(anchor, t, SampleOfHost(anchor, t, host) as real);
      0.0 <= (host - back) as real < t + 1.0
  {
    var d := (host - anchor) as real;
    var s := SampleOfHost(anchor, t, host);
    FloorAtLeast(d, t, 0);
    FloorAtLeast(d, t, s);
    FloorAtLeast(d, t, s + 1);
    ScaleOff(s as real, t);
    HostOfSampleExact(anchor, t, s as real);
  }

  /** Before the anchor as after it, a host time lies in the frame whose number it is converted to:
      the samples are counted downwards from the anchor, never towards it. */
  lemma SampleHoldsHost(anchor: int, t: real, host: int)
    requires t > 0.0
    ensures var s := SampleOfHost(anchor, t, host) as real;
      s * t <= (host - anchor) as real < s * t + t
  {
    var s := SampleOfHost(anchor, t, host);
    FloorAtLeast((host - anchor) as real, t, s);
    FloorAtLeast((host - anchor) as real, t, s + 1);
    ScaleOff(s as real, t);
  }

  /** Both conversions keep order. */
  lemma ConversionsMonotone(anchor: int, t: real, host: int, host': int, sample: real, sample': real)
    requires 0 <= anchor && t > 0.0 && host <= host'
    requires 0.0 <= sample <= sample' && anchor as real + sample' * t < UINT64 as real
    ensures SampleOfHost(anchor, t, host) <= SampleOfHost(anchor, t, host')
    ensures HostOfSample(anchor, t, sample) <= HostOfSample(anchor, t, sample')
  {
    var a, b := (host - anchor) as real, (host' - anchor) as real;
    DivideLess(a, t, b / t);
    assert b / t * t == b;
    if sample < sample' {
      MulLess(sample, sample', t);
    }
    HostOfSampleExact(anchor, t, sample);
    HostOfSampleExact(anchor, t, sample');
  }

  // ---------- start times ----------

  /** The start time, in the IO thread's samples, granted for a request while something runs:
      no earlier than the minimum, and past it on a grid of whole buffers, in 32-bit counts. */
  function GrantedStart(request: real, minimum: real, buffer: nat): real
    requires buffer > 0
  {
    if request < minimum then minimum
    else if request > minimum then
      var count := ((Truncate(request - minimum) % UINT32) / buffer + 2) % UINT32;
      minimum + (count * buffer % UINT32) as real
    else request
  }

  /** The 32-bit buffer count does not overflow. */
  predicate CountFits(request: real, minimum: real, buffer: nat)
    requires buffer > 0
  {
    request <= minimum || (Truncate(request - minimum) / buffer + 2) * buffer < UINT32
  }

  lemma QuotientBounds(x: int, b: nat)
    requires b > 0 && x >= 0
    ensures 0 <= (x / b) * b <= x < (x / b) * b + b
    ensures (x / b + 2) * b == (x / b) * b + 2 * b
    ensures 0 <= x / b <= x
  {
    Distribute(x / b, 2, b);
    assert x == (x / b) * b + x % b;
    MulBound(x / b, b);
    MulBound(b, x / b);
  }

  lemma CountIsExact(raw: nat, buffer: nat)
    requires buffer > 0 && (raw / buffer + 2) * buffer < UINT32
    ensures ((raw % UINT32) / buffer + 2) % UINT32 == raw / buffer + 2
    ensures (((raw % UINT32) / buffer + 2) % UINT32 * buffer) % UINT32 == (raw / buffer + 2) * buffer
    ensures raw + buffer < (raw / buffer + 2) * buffer <= raw + 2 * buffer
  {
    QuotientBounds(raw, buffer);
    var k := raw / buffer + 2;
    MulBound(buffer, k);
    assert raw % UINT32 == raw && k % UINT32 == k;
  }

  /** The grant is never before the minimum, and after it by a whole number of buffers if the
      count fits; then, for a request past the minimum, it lies more than one and at most two
      buffers after the request. */
  lemma GrantOnGrid(request: real, minimum: real, buffer: nat)
    requires buffer > 0
    ensures var g := GrantedStart(request, minimum, buffer);
      && g >= minimum
      && (CountFits(request, minimum, buffer) ==>
            exists k: nat :: g == minimum + (k * buffer) as real)
      && (CountFits(request, minimum, buffer) && request > minimum ==>
            buffer as real < g - request <= (2 * buffer) as real)
  {
    var g := GrantedStart(request, minimum, buffer);
    if request > minimum {
      var raw := Truncate(request - minimum);
      if CountFits(request, minimum, buffer) {
        CountIsExact(raw, buffer);
        var k: nat := raw / buffer + 2;
        assert g == minimum + (k * buffer) as real;
      }
    } else {
      var k: nat := 0;
      assert g == minimum + (k * buffer) as real;
    }
  }

  /** For a request past the minimum the grant comes after the request exactly if the 32-bit
      count of buffers fits: an overflowing count grants a time already past. */
  lemma GrantAfterRequestIffCountFits(request: real, minimum: real, buffer: nat)
    requires 0 < buffer && 2 * buffer <= UINT32 && request > minimum
    ensures GrantedStart(request, minimum, buffer) > request <==> CountFits(request, minimum, buffer)
  {
    GrantOnGrid(request, minimum, buffer);
    if !CountFits(request, minimum, buffer) {
      var raw := Truncate(request - minimum);
      QuotientBounds(raw, buffer);
      OverflowFallsShort(raw, buffer);
    }
  }

  /** A request a whole 32-bit range past the minimum is granted two blocks past the minimum. */
  lemma LateRequestOverflows(minimum: real)
    ensures var request := minimum + 4294967296.0;
      GrantedStart(request, minimum, 512) == minimum + 1024.0 < request
  {
    assert Truncate(4294967296.0) == 4294967296;
    assert minimum + 4294967296.0 - minimum == 4294967296.0;
  }

  lemma AtLeastDouble(q: nat, b: nat)
    ensures b >= 2 ==> q * b >= 2 * q
  {
    if b >= 2 {
      Distribute(b - 2, 2, q);
      assert (b - 2) * q >= 0;
    }
  }

  lemma OverflowFallsShort(raw: nat, buffer: nat)
    requires 0 < buffer && 2 * buffer <= UINT32 && (raw / buffer + 2) * buffer >= UINT32
    ensures (((raw % UINT32) / buffer + 2) % UINT32 * buffer) % UINT32 <= raw
  {
    if raw < UINT32 {
      assert raw % UINT32 == raw;
      SmallOverflow(raw, buffer, raw / buffer);
    }
  }

  lemma SmallOverflow(raw: nat, buffer: nat, q: nat)
    requires 0 < buffer && 2 * buffer <= UINT32 && raw < UINT32 && q == raw / buffer && (q + 2) * buffer >= UINT32
    ensures ((q + 2) % UINT32 * buffer) % UINT32 <= raw
  {
    QuotientBounds(raw, buffer);
    if q + 2 < UINT32 {
      assert (q + 2) % UINT32 == q + 2;
      WrapsOnce((q + 2) * buffer, raw, buffer);
    } else {
      AtLeastDouble(q, buffer);
      CountWraps(raw, buffer, q);
    }
  }

  lemma WrapsOnce(frames: int, raw: nat, buffer: nat)
    requires UINT32 <= frames <= raw + 2 * buffer && raw < UINT32 && 2 * buffer <= UINT32
    ensures frames % UINT32 <= raw
  {
    ModUnique(frames, UINT32, 1, frames - UINT32);
  }

  /** A count that itself overflows is one of single frames. */
  lemma CountWraps(raw: nat, buffer: nat, q: nat)
    requires raw < UINT32 <= q + 2 && 0 < buffer && q * buffer <= raw < q * buffer + buffer
    requires buffer >= 2 ==> q * buffer >= 2 * q
    ensures ((q + 2) % UINT32 * buffer) % UINT32 <= raw
  {
    assert buffer == 1;
    ModUnique(q + 2, UINT32, 1, q + 2 - UINT32);
    assert (q + 2 - UINT32) * buffer == q + 2 - UINT32;
  }
}

/** The time services of JackRouterDevice. */
module DeviceTime {
  import opened Rounding
  import opened TimeMath

  class AudioTimeStamp {
    var mSampleTime: real
    var mHostTime: int
    var mRateScalar: real
    var sampleTimeValid: bool
    var hostTimeValid: bool
    var rateScalarValid: bool

    constructor (sampleTimeValid: bool, hostTimeValid: bool, rateScalarValid: bool)
      ensures this.sampleTimeValid == sampleTimeValid && this.hostTimeValid == hostTimeValid
      ensures this.rateScalarValid == rateScalarValid
    {
      this.sampleTimeValid, this.hostTimeValid, this.rateScalarValid := sampleTimeValid, hostTimeValid, rateScalarValid;
      mSampleTime, mHostTime, mRateScalar := 0.0, 0, 0.0;
    }

    method CopyFrom(other: AudioTimeStamp)
      modifies this
      ensures mSampleTime == old(other.mSampleTime) && mHostTime == old(other.mHostTime)
      ensures mRateScalar == old(other.mRateScalar) && sampleTimeValid == old(other.sampleTimeValid)
      ensures hostTimeValid == old(other.hostTimeValid) && rateScalarValid == old(other.rateScalarValid)
    {
      mSampleTime, mHostTime, mRateScalar := other.mSampleTime, other.mHostTime, other.mRateScalar;
      sampleTimeValid, hostTimeValid := other.sampleTimeValid, other.hostTimeValid;
      rateScalarValid := other.rateScalarValid;
    }
  }

  /** What the device knows of its clocks, and the flags of a start-time request. */
  class RouterClock {
    var mAnchorHostTime: int
    const ticksPerFrame: real
    const ioBufferFrameSize: nat

    ghost predicate Valid()
      reads this
    {
      ticksPerFrame > 0.0 && 0 < ioBufferFrameSize < UINT32
    }

    constructor (anchorHostTime: int, ticksPerFrame: real, ioBufferFrameSize: nat)
      requires ticksPerFrame > 0.0 && 0 < ioBufferFrameSize < UINT32
      ensures Valid()
    {
      this.mAnchorHostTime := anchorHostTime;
      this.ticksPerFrame, this.ioBufferFrameSize := ticksPerFrame, ioBufferFrameSize;
    }

    /** A time stamp's sample time, read off or converted from its host time. */
    function SampleTimeOf(time: AudioTimeStamp): real
      reads this, time
      requires Valid()
    {
      if time.sampleTimeValid then time.mSampleTime
      else SampleOfHost(mAnchorHostTime, ticksPerFrame, time.mHostTime) as real
    }

    function HostTimeOf(time: AudioTimeStamp): int
      reads this, time
    {
      if time.hostTimeValid then time.mHostTime else HostOfSample(mAnchorHostTime, ticksPerFrame, time.mSampleTime)
    }

    /** A time stamp's sample time is its own, or the number of the frame its host time lies in. */
    lemma SampleTimeOfStamp(time: AudioTimeStamp)
      requires Valid()
      ensures time.sampleTimeValid ==> SampleTimeOf(time) == time.mSampleTime
      ensures !time.sampleTimeValid ==>
        var s := SampleTimeOf(time); var ticks := (time.mHostTime - mAnchorHostTime) as real;
        s.Floor as real == s && s * ticksPerFrame <= ticks < s * ticksPerFrame + ticksPerFrame
    {
      SampleHoldsHost(mAnchorHostTime, ticksPerFrame, time.mHostTime);
    }

    /** Its host time is its own, or the tick that its sample begins in. */
    lemma HostTimeOfStamp(time: AudioTimeStamp)
      requires Valid() && 0 <= mAnchorHostTime && time.mSampleTime >= 0.0
      requires mAnchorHostTime as real + time.mSampleTime * ticksPerFrame < UINT64 as real
      ensures HostTimeOf(time) ==
              if time.hostTimeValid then time.mHostTime else mAnchorHostTime + (time.mSampleTime * ticksPerFrame).Floor
    {
      HostOfTicks(mAnchorHostTime, ticksPerFrame, time.mSampleTime, time.mSampleTime * ticksPerFrame);
    }

    /** Fills in the fields of outTime that its flags ask for. Refuses a time stamp that has
        neither a sample time nor a host time. */
    method TranslateTime(inTime: AudioTimeStamp, outTime: AudioTimeStamp) returns (ok: bool)
      requires Valid() && inTime != outTime
      modifies outTime
      ensures ok <==> inTime.sampleTimeValid || inTime.hostTimeValid
      ensures !ok ==> unchanged(outTime)
      ensures unchanged(outTime`sampleTimeValid, outTime`hostTimeValid, outTime`rateScalarValid)
      ensures ok && outTime.sampleTimeValid ==> outTime.mSampleTime == SampleTimeOf(inTime)
      ensures ok && outTime.hostTimeValid ==> outTime.mHostTime == HostTimeOf(inTime)
      ensures !outTime.sampleTimeValid ==> unchanged(outTime`mSampleTime)
      ensures !outTime.hostTimeValid ==> unchanged(outTime`mHostTime)
      ensures ok && outTime.rateScalarValid ==> outTime.mRateScalar == inTime.mRateScalar
    {
      if !inTime.sampleTimeValid && !inTime.hostTimeValid {
        return false;
      }
      if outTime.sampleTimeValid {
        if inTime.sampleTimeValid {
          outTime.mSampleTime := inTime.mSampleTime;
        } else {
          var offset: real;
          if inTime.mHostTime >= mAnchorHostTime {
            offset := (inTime.mHostTime - mAnchorHostTime) as real;
          } else {
            offset := (mAnchorHostTime - inTime.mHostTime) as real;
            offset := offset * -1.0;
          }
          offset := offset / ticksPerFrame;
          outTime.mSampleTime := offset.Floor as real;
        }
      }
      if outTime.hostTimeValid {
        if inTime.hostTimeValid {
          outTime.mHostTime := inTime.mHostTime;
        } else {
          outTime.mHostTime := HostOfSample(mAnchorHostTime, ticksPerFrame, inTime.mSampleTime);
        }
      }
      if outTime.rateScalarValid {
        outTime.mRateScalar := inTime.mRateScalar;
      }
      return true;
    }

    /** The distance between a start time as a client states it and the IO thread's position. */
    function Shift(isInput: bool, safetyOffset: nat): real {
      (if isInput then ioBufferFrameSize + safetyOffset else -(ioBufferFrameSize + safetyOffset)) as real
    }

    /** The start sample time granted for a requested one, as the client states them. With only
        NULL starts the minimum also allows for the safety offset and there is no grid. */
    function Granted(request: real, now: real, isInput: bool, safetyOffset: nat, enabled: nat, nullStarts: nat): real
      requires ioBufferFrameSize > 0
    {
      var shift := Shift(isInput, safetyOffset);
      GrantedPosition(request + shift, now, safetyOffset, enabled, nullStarts) - shift
    }

    /** The same for positions of the IO thread. */
    function GrantedPosition(request: real, now: real, safetyOffset: nat, enabled: nat, nullStarts: nat): real
      requires ioBufferFrameSize > 0
    {
      var minimum := now + (2 * ioBufferFrameSize) as real;
      if enabled == 0 && nullStarts > 0 then
        var earliest := minimum + safetyOffset as real;
        if request < earliest then earliest else request
      else if enabled > 0 then GrantedStart(request, minimum, ioBufferFrameSize)
      else request
    }

    /** The position is too early and is moved to the minimum. */
    predicate Clamped(request: real, now: real, safetyOffset: nat, enabled: nat, nullStarts: nat) {
      var minimum := now + (2 * ioBufferFrameSize) as real;
      if enabled == 0 && nullStarts > 0 then request < minimum + safetyOffset as real
      else enabled > 0 && request < minimum
    }

    /** The host time that goes with a grant: the requested one if the request is granted as it is,
        the clock's reading if it is moved to the minimum, and the converted one otherwise. */
    function GrantedHost(request: real, requestHost: int, now: real, nowHost: int,
                         isInput: bool, safetyOffset: nat, enabled: nat, nullStarts: nat): int
      requires ioBufferFrameSize > 0
      reads this
    {
      var g := Granted(request, now, isInput, safetyOffset, enabled, nullStarts);
      if g == request then requestHost
      else if Clamped(request + Shift(isInput, safetyOffset), now, safetyOffset, enabled, nullStarts) then nowHost
      else HostOfSample(mAnchorHostTime, ticksPerFrame, g)
    }

    /** With NULL starts only, a request is granted as it is, host time and all, if in the IO
        thread's time it lies at least two buffers and the safety offset from now; an earlier one
        is moved to exactly there and answered with the host time of now. */
    lemma GrantedWithNullStartsOnly(request: real, requestHost: int, now: real, nowHost: int,
                                    isInput: bool, safetyOffset: nat, nullStarts: nat)
      requires Valid() && nullStarts > 0
      ensures var offset := (ioBufferFrameSize + safetyOffset) as real;
        var earliest := now + (2 * ioBufferFrameSize + safetyOffset) as real + if isInput then -offset else offset;
        && Granted(request, now, isInput, safetyOffset, 0, nullStarts) ==
           (if request < earliest then earliest else request)
        && GrantedHost(request, requestHost, now, nowHost, isInput, safetyOffset, 0, nullStarts) ==
           (if request < earliest then nowHost else requestHost)
    {}

    /** With nothing enabled every request is granted as it is. */
    lemma GrantedWhenIdle(request: real, requestHost: int, now: real, nowHost: int, isInput: bool, safetyOffset: nat)
      requires Valid()
      ensures Granted(request, now, isInput, safetyOffset, 0, 0) == request
      ensures GrantedHost(request, requestHost, now, nowHost, isInput, safetyOffset, 0, 0) == requestHost
    {}

    /** While an IOProc runs, a request at exactly two buffers from now is granted as it is; an
        earlier one is moved there and answered with the host time of now; a later one is answered
        with the host time of the grant. */
    lemma AnsweredWhileRunning(request: real, requestHost: int, now: real, nowHost: int,
                               isInput: bool, safetyOffset: nat, enabled: nat, nullStarts: nat)
      requires Valid() && enabled > 0
      ensures var offset := (ioBufferFrameSize + safetyOffset) as real;
        var earliest := now + (2 * ioBufferFrameSize) as real + if isInput then -offset else offset;
        var g := Granted(request, now, isInput, safetyOffset, enabled, nullStarts);
        var host := GrantedHost(request, requestHost, now, nowHost, isInput, safetyOffset, enabled, nullStarts);
        && (request <= earliest ==> g == earliest)
        && (request < earliest ==> host == nowHost)
        && (request == earliest ==> host == requestHost)
        && (request > earliest && g != request ==> host == HostOfSample(mAnchorHostTime, ticksPerFrame, g))
    {}

    /** How far a grant lies past now if the request is moved to the minimum. */
    function ClampDistance(isInput: bool, safetyOffset: nat, enabled: nat): int {
      2 * ioBufferFrameSize + (if enabled == 0 then safetyOffset else 0)
        - if isInput then ioBufferFrameSize + safetyOffset else -(ioBufferFrameSize + safetyOffset)
    }

    /** The host time granted for a request made as a sample time belongs to the sample time
        granted. */
    predicate HostTimeFits(request: real, now: real, nowHost: int, isInput: bool, safetyOffset: nat, enabled: nat,
                           nullStarts: nat)
      requires ioBufferFrameSize > 0
      reads this
    {
      GrantedHost(request, HostOfSample(mAnchorHostTime, ticksPerFrame, request), now, nowHost,
                  isInput, safetyOffset, enabled, nullStarts) ==
      HostOfSample(mAnchorHostTime, ticksPerFrame, Granted(request, now, isInput, safetyOffset, enabled, nullStarts))
    }

    /** That is so exactly if the request is not moved to the minimum, or the clock's host time
        happens to be that of the minimum. */
    lemma HostTimeFitsIff(request: real, now: real, nowHost: int, isInput: bool, safetyOffset: nat, enabled: nat,
                          nullStarts: nat)
      requires Valid()
      ensures HostTimeFits(request, now, nowHost, isInput, safetyOffset, enabled, nullStarts) <==>
              var g := Granted(request, now, isInput, safetyOffset, enabled, nullStarts);
              !Clamped(request + Shift(isInput, safetyOffset), now, safetyOffset, enabled, nullStarts)
              || nowHost == HostOfSample(mAnchorHostTime, ticksPerFrame, g)
    {}

    lemma GrantedWhenClamped(request: real, now: nat, isInput: bool, safetyOffset: nat, enabled: nat, nullStarts: nat)
      requires Valid() && Clamped(request + Shift(isInput, safetyOffset), now as real, safetyOffset, enabled,
                                  nullStarts)
      ensures Granted(request, now as real, isInput, safetyOffset, enabled, nullStarts) ==
              (now + ClampDistance(isInput, safetyOffset, enabled)) as real
    {}

    /** A request moved to the minimum is answered with the host time of now. */
    lemma HostTimeWhenClamped(request: real, now: nat, isInput: bool, safetyOffset: nat, enabled: nat,
                              nullStarts: nat, later: int)
      requires Valid() && Clamped(request + Shift(isInput, safetyOffset), now as real, safetyOffset, enabled,
                                  nullStarts)
      requires later == now + ClampDistance(isInput, safetyOffset, enabled)
      ensures HostTimeFits(request, now as real, HostOfSample(mAnchorHostTime, ticksPerFrame, now as real),
                           isInput, safetyOffset, enabled, nullStarts) <==>
              HostOfSample(mAnchorHostTime, ticksPerFrame, now as real) ==
              HostOfSample(mAnchorHostTime, ticksPerFrame, later as real)
    {
      GrantedWhenClamped(request, now, isInput, safetyOffset, enabled, nullStarts);
    }

    lemma ClampedFits(request: real, now: nat, isInput: bool, safetyOffset: nat, enabled: nat, nullStarts: nat,
                      later: nat, latest: nat)
      requires Valid() && ticksPerFrame >= 1.0 && mAnchorHostTime >= 0
      requires Clamped(request + Shift(isInput, safetyOffset), now as real, safetyOffset, enabled, nullStarts)
      requires later == now + ClampDistance(isInput, safetyOffset, enabled)
      requires now <= latest && later <= latest
      requires mAnchorHostTime as real + latest as real * ticksPerFrame < UINT64 as real
      ensures HostTimeFits(request, now as real, HostOfSample(mAnchorHostTime, ticksPerFrame, now as real),
                           isInput, safetyOffset, enabled, nullStarts)
              <==> now == later
    {
      HostTimesDiffer(mAnchorHostTime, ticksPerFrame, now, later, latest);
      HostTimeWhenClamped(request, now, isInput, safetyOffset, enabled, nullStarts, later);
    }

    /** With a clock whose two readings belong together, that is exactly if the request is not
        moved to the minimum, or the minimum, seen by the client, is now itself. */
    lemma HostTimeFitsIffNotClamped(request: real, now: nat, isInput: bool, safetyOffset: nat, enabled: nat,
                                    nullStarts: nat, latest: nat)
      requires Valid() && ticksPerFrame >= 1.0 && mAnchorHostTime >= 0 && safetyOffset <= ioBufferFrameSize + now
      requires latest == now + 3 * ioBufferFrameSize + 2 * safetyOffset
      requires mAnchorHostTime as real + latest as real * ticksPerFrame < UINT64 as real
      ensures HostTimeFits(request, now as real, HostOfSample(mAnchorHostTime, ticksPerFrame, now as real),
                           isInput, safetyOffset, enabled, nullStarts) <==>
              !Clamped(request + Shift(isInput, safetyOffset), now as real, safetyOffset, enabled, nullStarts)
              || ClampDistance(isInput, safetyOffset, enabled) == 0
    {
      if Clamped(request + Shift(isInput, safetyOffset), now as real, safetyOffset, enabled, nullStarts) {
        var later := now + ClampDistance(isInput, safetyOffset, enabled);
        ClampedFits(request, now, isInput, safetyOffset, enabled, nullStarts, later, latest);
      } else {
        HostTimeFitsIff(request, now as real, HostOfSample(mAnchorHostTime, ticksPerFrame, now as real),
                        isInput, safetyOffset, enabled, nullStarts);
      }
    }

    /** An output start asked for at once, with an IOProc running, blocks of 512 frames and one
        host tick a frame: the grant is 1536 frames from now, at the host time of now. */
    lemma ClampedHostTimeIsStale()
      requires ioBufferFrameSize == 512 && ticksPerFrame == 1.0 && mAnchorHostTime == 0
      ensures Granted(0.0, 100000.0, false, 0, 1, 0) == 101536.0
      ensures GrantedHost(0.0, 0, 100000.0, 100000, false, 0, 1, 0) == 100000
      ensures HostOfSample(mAnchorHostTime, ticksPerFrame, 101536.0) == 101536
    {}

    /** Moves a start time, in client terms, to what the HAL grants. A time stamp moved to the
        minimum becomes the clock's reading, host time included, with a later sample time. */
    method ConsultHAL(time: AudioTimeStamp, now: AudioTimeStamp, isInput: bool, safetyOffset: nat, enabled: nat,
                      nullStarts: nat)
      requires Valid() && time != now
      requires now.sampleTimeValid && now.hostTimeValid && now.rateScalarValid
      modifies time
      ensures time.sampleTimeValid
      ensures time.mSampleTime ==
                Granted(old(time.mSampleTime), now.mSampleTime, isInput, safetyOffset, enabled, nullStarts)
      ensures time.hostTimeValid <==>
              Clamped(old(time.mSampleTime) + Shift(isInput, safetyOffset), now.mSampleTime, safetyOffset, enabled,
                      nullStarts)
      ensures time.hostTimeValid ==> time.mHostTime == now.mHostTime
    {
      time.sampleTimeValid, time.hostTimeValid, time.rateScalarValid := true, false, false;
      if isInput {
        time.mSampleTime := time.mSampleTime + ioBufferFrameSize as real + safetyOffset as real;
      } else {
        time.mSampleTime := time.mSampleTime - ioBufferFrameSize as real - safetyOffset as real;
      }
      ghost var position := time.mSampleTime;
      assert position == old(time.mSampleTime) + Shift(isInput, safetyOffset);
      ClampToGrid(time, now, safetyOffset, enabled, nullStarts);
      if isInput {
        time.mSampleTime := time.mSampleTime - ioBufferFrameSize as real - safetyOffset as real;
      } else {
        time.mSampleTime := time.mSampleTime + ioBufferFrameSize as real + safetyOffset as real;
      }
    }

    method ClampToGrid(time: AudioTimeStamp, now: AudioTimeStamp, safetyOffset: nat, enabled: nat, nullStarts: nat)
      requires Valid() && time != now && time.sampleTimeValid && !time.hostTimeValid
      requires now.sampleTimeValid && now.hostTimeValid && now.rateScalarValid
      modifies time
      ensures time.sampleTimeValid
      ensures time.mSampleTime ==
                GrantedPosition(old(time.mSampleTime), now.mSampleTime, safetyOffset, enabled, nullStarts)
      ensures time.hostTimeValid <==> Clamped(old(time.mSampleTime), now.mSampleTime, safetyOffset, enabled, nullStarts)
      ensures time.hostTimeValid ==> time.mHostTime == now.mHostTime
    {
      var minimum := new AudioTimeStamp(true, true, true);
      if enabled == 0 && nullStarts > 0 {
        minimum.CopyFrom(now);
        minimum.mSampleTime := minimum.mSampleTime + (safetyOffset + 2 * ioBufferFrameSize) as real;
        if time.mSampleTime < minimum.mSampleTime {
          time.CopyFrom(minimum);
        }
      } else if enabled > 0 || nullStarts > 0 {
        minimum.CopyFrom(now);
        minimum.mSampleTime := minimum.mSampleTime + (2 * ioBufferFrameSize) as real;
        if time.mSampleTime < minimum.mSampleTime {
          time.CopyFrom(minimum);
        } else if time.mSampleTime > minimum.mSampleTime {
          var numberBuffers := Truncate(time.mSampleTime - minimum.mSampleTime) % UINT32;
          numberBuffers := numberBuffers / ioBufferFrameSize;
          numberBuffers := (numberBuffers + 2) % UINT32;
          time.mSampleTime := minimum.mSampleTime + (numberBuffers * ioBufferFrameSize % UINT32) as real;
        }
      }
    }

    /** Adjusts a requested start time to one the device can grant. `now` is the reading of the
        device's clock. Refuses a request that consults neither the HAL nor the device, or that
        has no time in it. */
    method GetNearestStartTime(ioTime: AudioTimeStamp, now: AudioTimeStamp, isInput: bool, safetyOffset: nat,
                               consultHAL: bool, consultDevice: bool, enabled: nat, nullStarts: nat) returns (ok: bool)
      requires Valid() && ioTime != now
      requires now.sampleTimeValid && now.hostTimeValid && now.rateScalarValid
      modifies ioTime
      ensures ok <==> (consultHAL || consultDevice) && old(ioTime.sampleTimeValid || ioTime.hostTimeValid)
      ensures !ok ==> unchanged(ioTime)
      ensures ok ==> ioTime.sampleTimeValid && ioTime.hostTimeValid
      ensures ok && !consultHAL ==>
                ioTime.mSampleTime == old(SampleTimeOf(ioTime)) && ioTime.mHostTime == old(HostTimeOf(ioTime))
      ensures ok && consultHAL ==>
        && ioTime.mSampleTime ==
             Granted(old(SampleTimeOf(ioTime)), now.mSampleTime, isInput, safetyOffset, enabled, nullStarts)
        && ioTime.mHostTime ==
             GrantedHost(old(SampleTimeOf(ioTime)), old(HostTimeOf(ioTime)), now.mSampleTime, now.mHostTime,
                         isInput, safetyOffset, enabled, nullStarts)
    {
      if !consultHAL && !consultDevice {
        return false;
      }
      var requested := new AudioTimeStamp(true, true, ioTime.rateScalarValid);
      var translated := TranslateTime(ioTime, requested);
      if !translated {
        return false;
      }
      var trueStart := new AudioTimeStamp(false, false, false);
      trueStart.CopyFrom(requested);
      if consultHAL {
        ConsultHAL(trueStart, now, isInput, safetyOffset, enabled, nullStarts);
      }
      if trueStart.mSampleTime != requested.mSampleTime {
        var _ := TranslateTime(trueStart, requested);
      }
      ioTime.CopyFrom(requested);
      return true;
    }

    /** What the HAL grants, in client terms, for a request made while an IOProc runs: never
        before two buffers from now, on the grid of whole buffers, and more than one and at most
        two buffers after the request if that is later. The shifts in and out cancel. */
    lemma GrantedWhileRunning(request: real, now: real, isInput: bool, safetyOffset: nat, enabled: nat, nullStarts: nat)
      requires 0 < ioBufferFrameSize < UINT32 && enabled > 0
      ensures var g := Granted(request, now, isInput, safetyOffset, enabled, nullStarts);
        var shift := Shift(isInput, safetyOffset); var minimum := now + (2 * ioBufferFrameSize) as real;
        && g + shift >= minimum
        && (request + shift <= minimum ==> g + shift == minimum)
        && (CountFits(request + shift, minimum, ioBufferFrameSize) ==>
              && (exists k: nat :: g + shift == minimum + (k * ioBufferFrameSize) as real)
              && (request + shift > minimum ==>
                    ioBufferFrameSize as real < g - request <= (2 * ioBufferFrameSize) as real))
    {
      var shift := Shift(isInput, safetyOffset);
      GrantOnGrid(request + shift, now + (2 * ioBufferFrameSize) as real, ioBufferFrameSize);
    }
  }
}

/** The sample count behind the time stamps of the audio cycle. */
module CycleTime {
  import opened Bits
  import opened TimeMath

  /** fSampleCount and mAnchorSampleTime, the current buffer size, and how many frames the count
      should be past the anchor. */
  datatype Clock = Clock(count: int, anchor: int, bufferSize: nat, elapsed: nat)

  datatype Event =
    | StartTiming(frameTime: nat)
    | StopTiming
    | XRun(frameTime: nat)
    | BufferSize(frames: nat)
    | Cycle

  /** The three sample times handed to IOProcs. */
  datatype Stamps = Stamps(now: int, input: int, output: int)

  function Wrapped(x: int): int {
    x % UINT64
  }

  function CycleStamps(c: Clock): Stamps {
    var now := Wrapped(c.count + c.bufferSize) - c.anchor;
    Stamps(now, now - c.bufferSize, now + c.bufferSize)
  }

  /** Anchoring one buffer back in time. */
  function Anchored(c: Clock, frameTime: nat): Clock {
    var start := Wrapped(frameTime - c.bufferSize);
    c.(count := start, anchor := start, elapsed := 0)
  }

  function Next(c: Clock, e: Event): (c': Clock)
    requires c.count >= 0
    ensures c'.count >= 0
  {
    match e
    case StartTiming(frameTime) => Anchored(c, frameTime)
    case XRun(frameTime) => Anchored(c, frameTime)
    case StopTiming => c.(anchor := 0, elapsed := c.count)
    case BufferSize(frames) => c.(bufferSize := frames)
    case Cycle => c.(count := Wrapped(c.count + c.bufferSize), elapsed := c.elapsed + c.bufferSize)
  }

  function After(bufferSize: nat, events: seq<Event>): (c: Clock)
    ensures c.count >= 0
  {
    if events == [] then Clock(0, 0, bufferSize, 0)
    else Next(After(bufferSize, events[..|events| - 1]), events[|events| - 1])
  }

  lemma WrapOnce(x: int)
    requires -UINT64 <= x < 2 * UINT64
    ensures Wrapped(x) == if x < 0 then x + UINT64 else if x < UINT64 then x else x - UINT64
  {
    var q := if x < 0 then -1 else if x < UINT64 then 0 else 1;
    ModUnique(x, UINT64, q, x - q * UINT64);
  }

  lemma WrapInRange(x: int)
    ensures 0 <= Wrapped(x) < UINT64
  {}

  lemma WrapSum(a: int, b: int)
    ensures Wrapped(Wrapped(a) + b) == Wrapped(a + b)
  {
    ModAdd(a, b, UINT64);
  }

  lemma NextCountIsElapsed(c: Clock, e: Event)
    requires 0 <= c.anchor < UINT64 && 0 <= c.count < UINT64 && c.count == Wrapped(c.anchor + c.elapsed)
    ensures var c' := Next(c, e);
      0 <= c'.anchor < UINT64 && 0 <= c'.count < UINT64 && c'.count == Wrapped(c'.anchor + c'.elapsed)
  {
    match e
    case StartTiming(frameTime) =>
      WrapInRange(frameTime - c.bufferSize);
      WrapOnce(Wrapped(frameTime - c.bufferSize));
    case XRun(frameTime) =>
      WrapInRange(frameTime - c.bufferSize);
      WrapOnce(Wrapped(frameTime - c.bufferSize));
    case StopTiming => WrapOnce(c.count);
    case BufferSize(frames) =>
    case Cycle =>
      WrapInRange(c.count + c.bufferSize);
      WrapSum(c.anchor + c.elapsed, c.bufferSize);
  }

  lemma {:induction false} CountIsElapsed(bufferSize: nat, events: seq<Event>)
    ensures var c := After(bufferSize, events);
      0 <= c.anchor < UINT64 && 0 <= c.count < UINT64 && c.count == Wrapped(c.anchor + c.elapsed)
  {
    if events == [] {
      WrapOnce(0);
    } else {
      CountIsElapsed(bufferSize, events[..|events| - 1]);
      NextCountIsElapsed(After(bufferSize, events[..|events| - 1]), events[|events| - 1]);
    }
  }

  /** The stamps of a cycle are the elapsed frames as long as the count does not run over. */
  lemma StampsOf(c: Clock)
    requires 0 <= c.anchor < UINT64 && c.count == Wrapped(c.anchor + c.elapsed)
    requires c.elapsed + c.bufferSize < UINT64
    ensures var now := CycleStamps(c).now;
      if c.anchor + c.elapsed + c.bufferSize < UINT64 then now == c.elapsed + c.bufferSize else now < 0
  {
    WrapSum(c.anchor + c.elapsed, c.bufferSize);
    WrapOnce(c.anchor + c.elapsed + c.bufferSize);
  }

  lemma StampsExact(c: Clock)
    requires 0 <= c.anchor < UINT64 && c.count == Wrapped(c.anchor + c.elapsed)
    requires c.anchor + c.elapsed + c.bufferSize < UINT64
    ensures CycleStamps(c) == Stamps(c.elapsed + c.bufferSize, c.elapsed, c.elapsed + 2 * c.bufferSize)
  {
    StampsOf(c);
  }

  /** After any history of starts, stops, overloads and size changes, a cycle's time stamps count
      the frames since the anchor exactly, the input time never being negative, provided the
      64-bit count does not run over, and only then. */
  lemma StampsCountFrames(bufferSize: nat, events: seq<Event>)
    requires After(bufferSize, events).elapsed + After(bufferSize, events).bufferSize < UINT64
    ensures var c := After(bufferSize, events); var s := CycleStamps(c);
      && (s == Stamps(c.elapsed + c.bufferSize, c.elapsed, c.elapsed + 2 * c.bufferSize)
          <==> c.anchor + c.elapsed + c.bufferSize < UINT64)
      && (s.input >= 0 <==> c.anchor + c.elapsed + c.bufferSize < UINT64)
  {
    CountIsElapsed(bufferSize, events);
    StampsOf(After(bufferSize, events));
  }

  /** Right after anchoring, the first cycle's times are right exactly if a whole buffer's worth
      of frames had passed: an earlier anchor lies so close to the end of the 64-bit range that
      the first buffer runs over it. */
  lemma AnchorNeedsOneBuffer(bufferSize: nat, events: seq<Event>, frameTime: nat)
    requires 0 < After(bufferSize, events).bufferSize < UINT64 && frameTime < UINT64
    ensures CycleStamps(After(bufferSize, events + [StartTiming(frameTime)])).input >= 0 <==>
            After(bufferSize, events).bufferSize <= frameTime
  {
    assert (events + [StartTiming(frameTime)])[..|events|] == events;
    CountIsElapsed(bufferSize, events + [StartTiming(frameTime)]);
    var c := After(bufferSize, events + [StartTiming(frameTime)]);
    WrapOnce(frameTime - c.bufferSize);
    StampsOf(c);
  }

  /** Anchored 100 frames after the server's start with blocks of 512, the first input time is
      negative. */
  lemma EarlyAnchorFails()
    ensures CycleStamps(After(512, [StartTiming(100)])).input < 0
  {
    assert [] + [StartTiming(100)] == [StartTiming(100)];
    AnchorNeedsOneBuffer(512, [], 100);
  }

  /** Timing that starts late enough, or starts again after an overload, begins with a cycle whose
      input time is 0. */
  lemma StampsOnceStarted(bufferSize: nat, events: seq<Event>, frameTime: nat)
    requires After(bufferSize, events).bufferSize <= frameTime < UINT64
    ensures var b := After(bufferSize, events).bufferSize;
      && CycleStamps(After(bufferSize, events + [StartTiming(frameTime)])) == Stamps(b, 0, 2 * b)
      && CycleStamps(After(bufferSize, events + [XRun(frameTime)])) == Stamps(b, 0, 2 * b)
  {
    AfterOneMore(bufferSize, events, StartTiming(frameTime));
    AfterOneMore(bufferSize, events, XRun(frameTime));
    AnchoredStamps(After(bufferSize, events), frameTime);
  }

  /** Once stopped, stamps are counts. */
  lemma StampsOnceStopped(bufferSize: nat, events: seq<Event>)
    requires After(bufferSize, events).count + After(bufferSize, events).bufferSize < UINT64
    ensures var c := After(bufferSize, events);
      CycleStamps(After(bufferSize, events + [StopTiming])) ==
      Stamps(c.count + c.bufferSize, c.count, c.count + 2 * c.bufferSize)
  {
    AfterOneMore(bufferSize, events, StopTiming);
    StoppedStamps(After(bufferSize, events));
  }

  /** A new buffer size holds from the next cycle on, from where the last one ended. */
  lemma StampsOnceResized(bufferSize: nat, events: seq<Event>, frames: nat)
    requires After(bufferSize, events).anchor + After(bufferSize, events).elapsed + frames < UINT64
    ensures var e := After(bufferSize, events).elapsed;
      CycleStamps(After(bufferSize, events + [BufferSize(frames)])) == Stamps(e + frames, e, e + 2 * frames)
  {
    AfterOneMore(bufferSize, events, BufferSize(frames));
    CountIsElapsed(bufferSize, events);
    StampsExact(After(bufferSize, events).(bufferSize := frames));
  }

  lemma AfterOneMore(bufferSize: nat, events: seq<Event>, e: Event)
    ensures After(bufferSize, events + [e]) == Next(After(bufferSize, events), e)
  {
    assert (events + [e])[..|events|] == events;
  }

  lemma StoppedStamps(c: Clock)
    requires 0 <= c.count && c.count + c.bufferSize < UINT64
    ensures CycleStamps(c.(anchor := 0, elapsed := c.count)) ==
            Stamps(c.count + c.bufferSize, c.count, c.count + 2 * c.bufferSize)
  {
    WrapOnce(c.count + c.bufferSize);
  }

  lemma AnchoredStamps(c: Clock, frameTime: nat)
    requires c.bufferSize <= frameTime < UINT64
    ensures CycleStamps(Anchored(c, frameTime)) == Stamps(c.bufferSize, 0, 2 * c.bufferSize)
  {
    WrapOnce(frameTime - c.bufferSize);
    WrapOnce(frameTime);
  }

  /** The same history without wrap-around: the position counted from the last anchoring, and
      where that anchoring was. Stopping leaves the count as it is and anchors at 0. */
  datatype Track = Track(start: int, position: int, bufferSize: nat)

  function TrackAfter(bufferSize: nat, events: seq<Event>): Track {
    if events == [] then Track(0, 0, bufferSize)
    else TrackNext(TrackAfter(bufferSize, events[..|events| - 1]), events[|events| - 1])
  }

  function TrackNext(t: Track, e: Event): Track {
    match e
    case StartTiming(frameTime) => Track(frameTime - t.bufferSize, frameTime - t.bufferSize, t.bufferSize)
    case XRun(frameTime) => Track(frameTime - t.bufferSize, frameTime - t.bufferSize, t.bufferSize)
    case StopTiming => Track(0, Wrapped(t.position), t.bufferSize)
    case BufferSize(frames) => t.(bufferSize := frames)
    case Cycle => t.(position := t.position + t.bufferSize)
  }

  predicate Follows(c: Clock, t: Track) {
    && c.bufferSize == t.bufferSize < UINT32 && c.elapsed == t.position - t.start
    && -UINT32 < t.start < UINT32
    && c.anchor == Wrapped(t.start) && c.count == Wrapped(t.position)
  }

  predicate AnchorsIn(events: seq<Event>, limit: int) {
    forall e | e in events :: (e.StartTiming? || e.XRun?) ==> e.frameTime < limit
  }

  predicate SizesIn(events: seq<Event>, limit: int) {
    forall e | e in events :: e.BufferSize? ==> e.frames < limit
  }

  lemma NextFollows(c: Clock, t: Track, e: Event)
    requires Follows(c, t) && AnchorsIn([e], UINT32) && SizesIn([e], UINT32)
    requires c.count >= 0
    ensures Follows(Next(c, e), TrackNext(t, e))
  {
    assert e in [e];
    match e
    case StopTiming =>
      WrapOnce(0);
      WrapSum(t.position, 0);
    case Cycle => WrapSum(t.position, t.bufferSize);
    case _ =>
  }

  lemma {:induction false} TrackFollows(bufferSize: nat, events: seq<Event>)
    requires bufferSize < UINT32 && AnchorsIn(events, UINT32) && SizesIn(events, UINT32)
    ensures Follows(After(bufferSize, events), TrackAfter(bufferSize, events))
  {
    if events == [] {
      WrapOnce(0);
    } else {
      var n := |events| - 1;
      assert events[n] in events;
      TrackFollows(bufferSize, events[..n]);
      NextFollows(After(bufferSize, events[..n]), TrackAfter(bufferSize, events[..n]), events[n]);
    }
  }

  /** Over every history with 32-bit frame times and buffer sizes, the input time of the next
      cycle is not negative exactly if the position does not run over the end of the 64-bit range
      (or, counted from before 0, over 0) by the end of that cycle. */
  lemma InputTimeNotNegative(bufferSize: nat, events: seq<Event>)
    requires bufferSize < UINT32 && AnchorsIn(events, UINT32) && SizesIn(events, UINT32)
    requires After(bufferSize, events).elapsed + After(bufferSize, events).bufferSize < UINT64
    ensures var t := TrackAfter(bufferSize, events);
      CycleStamps(After(bufferSize, events)).input >= 0 <==>
        t.position + t.bufferSize < if t.start >= 0 then UINT64 else 0
  {
    TrackFollows(bufferSize, events);
    StampsCountFrames(bufferSize, events);
    WrapOnce(TrackAfter(bufferSize, events).start);
  }

  /** Every anchoring came after at least one buffer, as large as buffers then were, had passed. */
  predicate AnchoredLate(bufferSize: nat, events: seq<Event>) {
    forall k | 0 <= k < |events| && (events[k].StartTiming? || events[k].XRun?) ::
      events[k].frameTime >= TrackAfter(bufferSize, events[..k]).bufferSize
  }

  /** So if anchorings always come late enough, every cycle up to the end of the 64-bit range has
      the times of the frames elapsed since the anchor, none of them negative. */
  lemma NoCycleGoesNegative(bufferSize: nat, events: seq<Event>)
    requires bufferSize < UINT32 && AnchorsIn(events, UINT32) && SizesIn(events, UINT32)
    requires AnchoredLate(bufferSize, events)
    requires TrackAfter(bufferSize, events).position + TrackAfter(bufferSize, events).bufferSize < UINT64
    ensures var t := TrackAfter(bufferSize, events); var e := t.position - t.start;
      && e >= 0
      && CycleStamps(After(bufferSize, events)) == Stamps(e + t.bufferSize, e, e + 2 * t.bufferSize)
  {
    TrackFollows(bufferSize, events);
    StartsLate(bufferSize, events);
    InputTimeNotNegative(bufferSize, events);
    StampsCountFrames(bufferSize, events);
  }

  lemma {:induction false} StartsLate(bufferSize: nat, events: seq<Event>)
    requires AnchoredLate(bufferSize, events)
    ensures TrackAfter(bufferSize, events).start >= 0
  {
    if events != [] {
      var n := |events| - 1;
      assert AnchoredLate(bufferSize, events[..n]) by {
        assert forall k | 0 <= k < n :: events[..n][..k] == events[..k];
      }
      StartsLate(bufferSize, events[..n]);
      if events[n].StartTiming? || events[n].XRun? {
        assert events[n].frameTime >= TrackAfter(bufferSize, events[..n]).bufferSize;
      }
    }
  }

  /** Cycles tile: without an event in between, the output time of one cycle is the current time
      of the next and the input time of the one after. */
  lemma CyclesTile(bufferSize: nat, events: seq<Event>)
    requires var c := After(bufferSize, events); c.anchor + c.elapsed + 3 * c.bufferSize < UINT64
    ensures var c := After(bufferSize, events); var d := Next(c, Cycle); var e := Next(d, Cycle);
      CycleStamps(c).output == CycleStamps(d).now == CycleStamps(e).input
  {
    CountIsElapsed(bufferSize, events);
    var c := After(bufferSize, events);
    var d := Next(c, Cycle);
    NextCountIsElapsed(c, Cycle);
    NextCountIsElapsed(d, Cycle);
    StampsExact(c);
    StampsExact(d);
    StampsExact(Next(d, Cycle));
  }

  /** The device's count and anchor, updated by its callbacks. */
  class CycleClock {
    var fSampleCount: int
    var mAnchorSampleTime: int
    var fBufferSize: nat
    ghost var elapsed: nat

    /** The count is the anchor plus the frames elapsed, in 64 bits. */
    ghost predicate Valid()
      reads this
    {
      && 0 <= fSampleCount < UINT64 && 0 <= mAnchorSampleTime < UINT64
      && fSampleCount == Wrapped(mAnchorSampleTime + elapsed)
    }

    ghost function Value(): Clock
      reads this
    {
      Clock(fSampleCount, mAnchorSampleTime, fBufferSize, elapsed)
    }

    constructor (bufferSize: nat)
      ensures Valid() && Value() == After(bufferSize, [])
    {
      fSampleCount, mAnchorSampleTime, fBufferSize, elapsed := 0, 0, bufferSize, 0;
    }

    method StartIOCycleTimingServices(frameTime: nat)
      requires Valid()
      modifies this
      ensures Valid() && elapsed == 0
      ensures Value() == Next(old(Value()), StartTiming(frameTime))
    {
      NextCountIsElapsed(Value(), StartTiming(frameTime));
      fSampleCount := (frameTime - fBufferSize) % UINT64;
      mAnchorSampleTime := fSampleCount;
      elapsed := 0;
    }

    method StopIOCycleTimingServices()
      requires Valid()
      modifies this
      ensures Valid() && Value() == Next(old(Value()), StopTiming)
    {
      NextCountIsElapsed(Value(), StopTiming);
      mAnchorSampleTime := 0;
      elapsed := fSampleCount;
    }

    method SetBufferSize(frames: nat)
      requires Valid()
      modifies this
      ensures Valid() && Value() == Next(old(Value()), BufferSize(frames))
    {
      if frames != fBufferSize {
        fBufferSize := frames;
      }
    }

    /** The opening of the audio cycle: its input begins with the frames elapsed since the anchor,
        one buffer before now and two before its output ends, while the count does not run over. */
    method BeginCycle() returns (now: int, input: int, output: int)
      requires Valid()
      modifies this
      ensures Valid() && elapsed == old(elapsed) + fBufferSize
      ensures Value() == Next(old(Value()), Cycle)
      ensures Stamps(now, input, output) == CycleStamps(old(Value()))
      ensures mAnchorSampleTime + elapsed < UINT64 ==>
        input == old(elapsed) && now == elapsed && output == elapsed + fBufferSize
    {
      NextCountIsElapsed(Value(), Cycle);
      if mAnchorSampleTime + elapsed + fBufferSize < UINT64 {
        StampsExact(Value());
      }
      fSampleCount := (fSampleCount + fBufferSize) % UINT64;
      now := fSampleCount - mAnchorSampleTime;
      input := now - fBufferSize;
      output := now + fBufferSize;
      elapsed := elapsed + fBufferSize;
    }
  }
}
