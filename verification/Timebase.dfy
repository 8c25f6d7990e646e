/** The bar/beat/tick position of TransportMain.cpp on values: the absolute computation, the
    incremental one, and the drift between them. Beats per bar (n) and ticks per beat (t) are
    whole numbers; frame rate and tempo enter through a tick position as a real number. */
module BarBeatTick {
  import opened Bits
  import opened Rounding

  datatype BBT = BBT(bar: int, beat: int, tick: int, barStartTick: int)

  /** Division of integers as floating-point numbers, converted back. */
  function TruncatedQuotient(a: int, b: nat): int
    requires b > 0
  {
    if a >= 0 then a / b else -((-a) / b)
  }

  /** A position in the ticks of the whole timeline. */
  function TotalTicks(p: BBT, n: nat, t: nat): int {
    ((p.bar - 1) * n + (p.beat - 1)) * t + p.tick
  }

  predicate InRange(p: BBT, n: nat, t: nat) {
    && p.bar >= 1
    && 1 <= p.beat <= n
    && 0 <= p.tick < t
    && p.barStartTick == (p.bar - 1) * n * t
  }

  /** The position computed from ticks since frame 0. */
  function FromTicks(absTick: int, n: nat, t: nat): BBT
    requires n > 0 && t > 0
  {
    var absBeat := TruncatedQuotient(absTick, t);
    var bar := TruncatedQuotient(absBeat, n);
    BBT(bar + 1, absBeat - bar * n + 1, absTick - absBeat * t, bar * n * t)
  }

  /** The carry loop, one round at a time. */
  function CarryOnce(p: BBT, n: nat, t: nat): BBT {
    var q := p.(tick := p.tick - t, beat := p.beat + 1);
    if q.beat > n then q.(beat := 1, bar := q.bar + 1, barStartTick := q.barStartTick + n * t) else q
  }

  function Carry(p: BBT, n: nat, t: nat): BBT
    requires t > 0
    decreases p.tick
  {
    if p.tick >= t then Carry(CarryOnce(p, n, t), n, t) else p
  }

  /** One period later: the ticks of a period are added, truncated and carried. */
  function Advance(p: BBT, period: real, n: nat, t: nat): BBT
    requires t > 0
  {
    Carry(p.(tick := Truncate(p.tick as real + period)), n, t)
  }

  function AdvanceMany(p: BBT, period: real, n: nat, t: nat, periods: nat): BBT
    requires t > 0
  {
    if periods == 0 then p else Advance(AdvanceMany(p, period, n, t, periods - 1), period, n, t)
  }

  lemma QuotientIsExact(a: int, b: nat)
    requires b > 0
    ensures Truncate(a as real / b as real) == TruncatedQuotient(a, b)
  {
    if a >= 0 {
      FloorOfQuotient(a, b);
    } else {
      FloorOfQuotient(-a, b);
      assert -(a as real / b as real) == (-a) as real / b as real;
    }
  }

  lemma ProductSign(a: real, b: real)
    requires b > 0.0
    ensures a > 0.0 ==> a * b > 0.0
    ensures a >= 1.0 ==> a * b >= b
    ensures a < 0.0 ==> a * b < 0.0
  {
    if a >= 1.0 {
      assert (a - 1.0) * b >= 0.0;
    }
  }

  lemma QuotientBetween(x: real, b: real, q: real, r: real)
    requires 0.0 <= r < b && x * b == q * b + r
    ensures q <= x < q + 1.0
  {
    var d := x - q;
    assert d * b == x * b - q * b;
    assert d * b == r;
    ProductSign(d, b);
  }

  lemma FloorOfQuotient(a: nat, b: nat)
    requires b > 0
    ensures (a as real / b as real).Floor == a / b && a as real / b as real >= 0.0
  {
    var q, r := a / b, a % b;
    var x := a as real / b as real;
    assert x * b as real == a as real;
    assert a == q * b + r;
    assert (q * b) as real == q as real * b as real;
    QuotientBetween(x, b as real, q as real, r as real);
  }

  /** One round of the loop keeps the total and the bar's start, and stays within the bar. */
  lemma CarryOnceKeeps(p: BBT, n: nat, t: nat)
    requires n > 0 && t > 0 && 1 <= p.beat <= n && p.bar >= 1 && p.barStartTick == (p.bar - 1) * n * t
    ensures var q := CarryOnce(p, n, t);
      && TotalTicks(q, n, t) == TotalTicks(p, n, t)
      && 1 <= q.beat <= n && q.bar >= 1 && q.barStartTick == (q.bar - 1) * n * t
  {
    var q := CarryOnce(p, n, t);
    var bars := (p.bar - 1) * n;
    if p.beat == n {
      Distribute(p.bar - 1, 1, n);
      Distribute(bars + (p.beat - 1), 1, t);
      Distribute(bars, n, t);
    } else {
      Distribute(bars + (p.beat - 1), 1, t);
    }
  }

  /** The carry loop brings the position into range without losing a tick. */
  lemma {:induction false} CarryKeeps(p: BBT, n: nat, t: nat)
    requires n > 0 && t > 0 && p.tick >= 0
    requires 1 <= p.beat <= n && p.bar >= 1 && p.barStartTick == (p.bar - 1) * n * t
    ensures InRange(Carry(p, n, t), n, t) && TotalTicks(Carry(p, n, t), n, t) == TotalTicks(p, n, t)
    decreases p.tick
  {
    if p.tick >= t {
      CarryOnceKeeps(p, n, t);
      CarryKeeps(CarryOnce(p, n, t), n, t);
    }
  }

  lemma QuotientOfNatural(a: nat, b: nat)
    requires b > 0
    ensures 0 <= a - a / b * b < b
  {
    assert a == (a / b) * b + a % b;
  }

  lemma QuotientStep(a: int, b: nat)
    requires b > 0
    ensures var q := TruncatedQuotient(a, b);
      && (a >= 0 ==> q >= 0 && 0 <= a - q * b < b)
      && (a < 0 ==> q <= 0 && 0 <= q * b - a < b && (a == q * b ==> q <= -1))
  {
    if a >= 0 {
      QuotientOfNatural(a, b);
    } else {
      QuotientOfNatural(-a, b);
      Distribute(0, (-a) / b, b);
    }
  }

  /** The absolute computation is in range exactly if the tick count is not negative, and then
      it is the position with that many ticks. */
  lemma FromTicksInRange(absTick: int, n: nat, t: nat)
    requires n > 0 && t > 0
    ensures InRange(FromTicks(absTick, n, t), n, t) <==> absTick >= 0
    ensures TotalTicks(FromTicks(absTick, n, t), n, t) == absTick
  {
    var p := FromTicks(absTick, n, t);
    var absBeat := TruncatedQuotient(absTick, t);
    var bar := TruncatedQuotient(absBeat, n);
    QuotientStep(absTick, t);
    QuotientStep(absBeat, n);
    assert (p.bar - 1) * n + (p.beat - 1) == absBeat;
    if absTick < 0 && p.tick >= 0 {
      assert p.tick == 0 && absBeat <= -1;
      if p.beat >= 1 {
        assert bar <= -1;
      }
    }
  }

  /** A position computed from a number that is cut off is in range exactly if that is above -1. */
  lemma TicksInRange(ticks: real, n: nat, t: nat)
    requires n > 0 && t > 0
    ensures InRange(FromTicks(Truncate(ticks), n, t), n, t) <==> ticks > -1.0
  {
    FromTicksInRange(Truncate(ticks), n, t);
  }

  /** At most one position in range has a given number of ticks. */
  lemma PositionIsUnique(p: BBT, q: BBT, n: nat, t: nat)
    requires InRange(p, n, t) && InRange(q, n, t) && TotalTicks(p, n, t) == TotalTicks(q, n, t)
    ensures p == q
  {
    var a, b := (p.bar - 1) * n + (p.beat - 1), (q.bar - 1) * n + (q.beat - 1);
    ModUnique(TotalTicks(p, n, t), t, a, p.tick);
    ModUnique(TotalTicks(p, n, t), t, b, q.tick);
    ModUnique(a, n, p.bar - 1, p.beat - 1);
    ModUnique(a, n, q.bar - 1, q.beat - 1);
  }

  lemma TruncateAdds(a: int, x: real)
    requires a >= 0
    ensures Truncate(a as real + x) >= 0 <==> a as real + x > -1.0
    ensures x >= 0.0 ==> Truncate(a as real + x) == a + x.Floor
  {}

  /** A step from a position in range stays in range exactly if the position's ticks and those of
      the period add up to more than -1; a step forward adds the whole ticks of the period. */
  lemma AdvanceInRange(p: BBT, period: real, n: nat, t: nat)
    requires n > 0 && t > 0 && InRange(p, n, t)
    ensures InRange(Advance(p, period, n, t), n, t) <==> p.tick as real + period > -1.0
    ensures period >= 0.0 ==> TotalTicks(Advance(p, period, n, t), n, t) == TotalTicks(p, n, t) + period.Floor
  {
    TruncateAdds(p.tick, period);
    var q := p.(tick := Truncate(p.tick as real + period));
    if q.tick >= 0 {
      CarryKeeps(q, n, t);
    }
  }

  /** A run of periods stays in range and grows by the same whole number of ticks each time. */
  lemma {:induction false} AdvanceManyInRange(p: BBT, period: real, n: nat, t: nat, periods: nat)
    requires n > 0 && t > 0 && InRange(p, n, t) && period >= 0.0
    ensures var q := AdvanceMany(p, period, n, t, periods);
      InRange(q, n, t) && TotalTicks(q, n, t) == TotalTicks(p, n, t) + periods * period.Floor
  {
    if periods > 0 {
      AdvanceManyInRange(p, period, n, t, periods - 1);
      AdvanceInRange(AdvanceMany(p, period, n, t, periods - 1), period, n, t);
      Distribute(periods, 1, period.Floor);
    }
  }

  function Fraction(x: real): real {
    x - x.Floor as real
  }

  lemma FloorOfSum(m: int, x: real)
    ensures (m as real + x).Floor == m + x.Floor
  {}

  lemma Scale(a: real, b: real, k: real)
    ensures k * (a + b) == k * a + k * b
  {}

  /** The whole ticks of k periods after a start, and the whole ticks in the fractions. */
  lemma FloorOfRun(start: real, period: real, k: nat)
    requires start >= 0.0 && period >= 0.0
    ensures start + k as real * period >= 0.0
    ensures (start + k as real * period).Floor ==
            start.Floor + k * period.Floor + (Fraction(start) + k as real * Fraction(period)).Floor
    ensures 0 <= (Fraction(start) + k as real * Fraction(period)).Floor <= k
    ensures Fraction(period) == 0.0 ==> (Fraction(start) + k as real * Fraction(period)).Floor == 0
  {
    var f, g, kr := Fraction(start), Fraction(period), k as real;
    Scale(period.Floor as real, g, kr);
    WholeProduct(k, period.Floor);
    FractionsAddUp(f, g, k);
    FloorOfSum(start.Floor + k * period.Floor, f + kr * g);
  }

  lemma WholeProduct(k: nat, p: nat)
    ensures k as real * p as real == (k * p) as real >= 0.0
  {}

  lemma FractionsAddUp(f: real, g: real, k: nat)
    requires 0.0 <= f < 1.0 && 0.0 <= g < 1.0
    ensures 0.0 <= k as real * g <= k as real
    ensures 0 <= (f + k as real * g).Floor <= k
    ensures g == 0.0 ==> (f + k as real * g).Floor == 0
  {
    if k > 0 && g > 0.0 {
      PositiveProduct(k as real, g);
      LessOfWhole(k as real, g, 1.0 - g);
    }
  }

  lemma LessOfWhole(k: real, g: real, rest: real)
    requires k > 0.0 && rest > 0.0 && g + rest == 1.0
    ensures k * g < k
  {
    PositiveProduct(k, rest);
    Scale(g, rest, k);
    assert k * (g + rest) == k * 1.0;
  }

  lemma PositiveProduct(a: real, b: real)
    requires a > 0.0 && b > 0.0
    ensures a * b > 0.0
  {}

  /** How far the incremental position falls behind the absolute one in k periods: exactly the
      whole ticks in the fractions thrown away, so at most k, and nothing at all if a period is
      a whole number of ticks. */
  lemma DriftIsExact(ticks: real, period: real, n: nat, t: nat, k: nat)
    requires n > 0 && t > 0 && ticks >= 0.0 && period >= 0.0
    ensures var drift := TotalTicks(FromTicks(Truncate(ticks + k as real * period), n, t), n, t)
                         - TotalTicks(AdvanceMany(FromTicks(Truncate(ticks), n, t), period, n, t, k), n, t);
      && drift == (Fraction(ticks) + k as real * Fraction(period)).Floor
      && 0 <= drift <= k
      && (Fraction(period) == 0.0 ==> drift == 0)
  {
    FloorOfRun(ticks, period, k);
    FromTicksInRange(Truncate(ticks), n, t);
    AdvanceManyInRange(FromTicks(Truncate(ticks), n, t), period, n, t, k);
    FromTicksInRange(Truncate(ticks + k as real * period), n, t);
  }

  /** Both positions are in range; the incremental one is behind the absolute one by the whole
      ticks in the fractions thrown away in k periods: at most k ticks, and it is the same
      position if a period is a whole number of ticks. */
  predicate FallsBehind(incremental: BBT, absolute: BBT, ticks: real, period: real, n: nat, t: nat, k: nat) {
    var drift := TotalTicks(absolute, n, t) - TotalTicks(incremental, n, t);
    && InRange(absolute, n, t) && InRange(incremental, n, t)
    && drift == (Fraction(ticks) + k as real * Fraction(period)).Floor
    && 0 <= drift <= k
    && (Fraction(period) == 0.0 ==> absolute == incremental)
  }

  lemma RunDrift(ticks: real, period: real, later: real, n: nat, t: nat, k: nat)
    requires n > 0 && t > 0 && ticks >= 0.0 && period >= 0.0 && later == ticks + k as real * period
    ensures FallsBehind(AdvanceMany(FromTicks(Truncate(ticks), n, t), period, n, t, k),
                        FromTicks(Truncate(later), n, t), ticks, period, n, t, k)
  {
    DriftIsExact(ticks, period, n, t, k);
    FloorOfRun(ticks, period, k);
    FromTicksInRange(Truncate(ticks), n, t);
    FromTicksInRange(Truncate(later), n, t);
    AdvanceManyInRange(FromTicks(Truncate(ticks), n, t), period, n, t, k);
    if Fraction(period) == 0.0 {
      PositionIsUnique(FromTicks(Truncate(later), n, t),
                       AdvanceMany(FromTicks(Truncate(ticks), n, t), period, n, t, k), n, t);
    }
  }
}

/** The timebase callback of TransportMain.cpp. */
module Timebase {
  import opened Rounding
  import opened BarBeatTick

  /** jack_position_t, as far as the callback uses it. */
  class Position {
    var frame: nat
    var frameRate: nat
    var bar: int
    var beat: int
    var tick: int
    var barStartTick: int
    var beatsPerBar: nat
    var ticksPerBeat: nat
    var beatsPerMinute: real
    var valid: bool

    constructor (frameRate: nat)
      ensures this.frameRate == frameRate && !valid
    {
      this.frameRate := frameRate;
      frame, bar, beat, tick, barStartTick := 0, 0, 0, 0, 0;
      beatsPerBar, ticksPerBeat, beatsPerMinute, valid := 0, 0, 0.0, false;
    }

    function Value(): BBT
      reads this
    {
      BBT(bar, beat, tick, barStartTick)
    }
  }

  /** Ticks from frame 0 to a frame. */
  function TicksAt(frame: nat, frameRate: nat, tempo: real, t: nat): real
    requires frameRate > 0
  {
    frame as real / (frameRate as real * 60.0) * tempo * t as real
  }

  /** Ticks in a period. */
  function TicksIn(nframes: nat, frameRate: nat, tempo: real, t: nat): real
    requires frameRate > 0
  {
    nframes as real * t as real * tempo / (frameRate * 60) as real
  }

  class TimeMaster {
    const time_beats_per_bar: nat := 4
    const time_ticks_per_beat: nat := 1920
    var time_beats_per_minute: real
    var time_reset: bool

    constructor ()
      ensures time_reset && time_beats_per_minute == 120.0
    {
      time_beats_per_minute := 120.0;
      time_reset := true;
    }

    /** A change of tempo takes effect for the whole timeline at the next callback. */
    method SetTempo(tempo: real)
      modifies this
      ensures time_beats_per_minute == tempo && time_reset
    {
      time_beats_per_minute := tempo;
      time_reset := true;
    }

    /** Recomputes the position from the frame number after a change, and moves it on by one
        period otherwise. */
    method Callback(nframes: nat, pos: Position, newPos: bool)
      requires pos.frameRate > 0
      requires !newPos && !time_reset ==> pos.ticksPerBeat > 0
      modifies this`time_reset, pos
      ensures !time_reset
      ensures unchanged(pos`frame, pos`frameRate)
      ensures newPos || old(time_reset) ==> pos.beatsPerBar == 4 && pos.ticksPerBeat == 1920
      ensures newPos || old(time_reset) ==>
        && pos.valid && pos.beatsPerBar == time_beats_per_bar && pos.ticksPerBeat == time_ticks_per_beat
        && pos.beatsPerMinute == time_beats_per_minute
        && pos.Value() == FromTicks(Truncate(TicksAt(pos.frame, pos.frameRate, pos.beatsPerMinute, pos.ticksPerBeat)),
                                    pos.beatsPerBar, pos.ticksPerBeat)
      ensures !newPos && !old(time_reset) ==>
        && unchanged(pos`valid, pos`beatsPerBar, pos`ticksPerBeat, pos`beatsPerMinute)
        && pos.Value() ==
             Advance(old(pos.Value()), TicksIn(nframes, pos.frameRate, pos.beatsPerMinute, pos.ticksPerBeat),
                     pos.beatsPerBar, pos.ticksPerBeat)
    {
      if newPos || time_reset {
        Recompute(pos);
      } else {
        MoveOn(nframes, pos);
      }
    }

    method Recompute(pos: Position)
      requires pos.frameRate > 0
      modifies this`time_reset, pos
      ensures !time_reset && unchanged(pos`frame, pos`frameRate)
      ensures pos.valid && pos.beatsPerBar == time_beats_per_bar && pos.ticksPerBeat == time_ticks_per_beat
      ensures pos.beatsPerMinute == time_beats_per_minute
      ensures pos.Value() ==
                FromTicks(Truncate(TicksAt(pos.frame, pos.frameRate, pos.beatsPerMinute, pos.ticksPerBeat)),
                          pos.beatsPerBar, pos.ticksPerBeat)
    {
      pos.valid := true;
      pos.beatsPerBar := time_beats_per_bar;
      pos.ticksPerBeat := time_ticks_per_beat;
      pos.beatsPerMinute := time_beats_per_minute;
      time_reset := false;
      var n, t := pos.beatsPerBar, pos.ticksPerBeat;
      var absTick := Truncate(TicksAt(pos.frame, pos.frameRate, pos.beatsPerMinute, t));
      QuotientIsExact(absTick, t);
      var absBeat := Truncate(absTick as real / t as real);
      QuotientIsExact(absBeat, n);
      pos.bar := Truncate(absBeat as real / n as real);
      pos.beat := absBeat - pos.bar * n + 1;
      pos.tick := absTick - absBeat * t;
      pos.barStartTick := pos.bar * n * t;
      pos.bar := pos.bar + 1;
    }

    method MoveOn(nframes: nat, pos: Position)
      requires pos.frameRate > 0 && pos.ticksPerBeat > 0
      modifies pos`bar, pos`beat, pos`tick, pos`barStartTick
      ensures pos.Value() ==
                Advance(old(pos.Value()), TicksIn(nframes, pos.frameRate, pos.beatsPerMinute, pos.ticksPerBeat),
                        pos.beatsPerBar, pos.ticksPerBeat)
    {
      var period := TicksIn(nframes, pos.frameRate, pos.beatsPerMinute, pos.ticksPerBeat);
      pos.tick := Truncate(pos.tick as real + period);
      ghost var start := pos.Value();
      while pos.tick >= pos.ticksPerBeat
        invariant Carry(pos.Value(), pos.beatsPerBar, pos.ticksPerBeat) ==
                    Carry(start, pos.beatsPerBar, pos.ticksPerBeat)
        decreases pos.tick
      {
        pos.tick := pos.tick - pos.ticksPerBeat;
        pos.beat := pos.beat + 1;
        if pos.beat > pos.beatsPerBar {
          pos.beat := 1;
          pos.bar := pos.bar + 1;
          pos.barStartTick := pos.barStartTick + pos.beatsPerBar * pos.ticksPerBeat;
        }
      }
    }
  }

  /** The absolute computation on its inputs: it leaves the range exactly if the frame lies a whole
      tick or more before frame 0, as it does far enough into a timeline of negative tempo. At
      frame 0 every tempo will do. */
  lemma RecomputedInRange(frame: nat, frameRate: nat, tempo: real, n: nat, t: nat)
    requires frameRate > 0 && n > 0 && t > 0
    ensures InRange(FromTicks(Truncate(TicksAt(frame, frameRate, tempo, t)), n, t), n, t) <==>
            frame as real * (tempo * t as real) > -(1.0 * (frameRate as real * 60.0))
  {
    TicksInRange(TicksAt(frame, frameRate, tempo, t), n, t);
    TicksAbove(frame, frameRate, tempo, t, 1.0);
  }

  /** The incremental one on its inputs. */
  lemma MovedOnInRange(p: BBT, nframes: nat, frameRate: nat, tempo: real, n: nat, t: nat)
    requires frameRate > 0 && n > 0 && t > 0 && InRange(p, n, t)
    ensures InRange(Advance(p, TicksIn(nframes, frameRate, tempo, t), n, t), n, t) <==>
            nframes as real * (tempo * t as real) > -((p.tick + 1) as real * (frameRate as real * 60.0))
  {
    AdvanceInRange(p, TicksIn(nframes, frameRate, tempo, t), n, t);
    PeriodAbove(nframes, frameRate, tempo, t, (p.tick + 1) as real);
  }

  lemma TicksAbove(frame: nat, frameRate: nat, tempo: real, t: nat, k: real)
    requires frameRate > 0
    ensures TicksAt(frame, frameRate, tempo, t) > -k <==>
            frame as real * (tempo * t as real) > -(k * (frameRate as real * 60.0))
  {
    TicksAsProduct(frame, frameRate, tempo, t);
    QuotientAbove(frame as real, frameRate as real * 60.0, tempo * t as real, k, TicksAt(frame, frameRate, tempo, t));
  }

  lemma PeriodAbove(nframes: nat, frameRate: nat, tempo: real, t: nat, k: real)
    requires frameRate > 0
    ensures TicksIn(nframes, frameRate, tempo, t) > -k <==>
            nframes as real * (tempo * t as real) > -(k * (frameRate as real * 60.0))
  {
    PeriodAsProduct(nframes, frameRate, tempo, t);
    QuotientAbove(nframes as real, frameRate as real * 60.0, tempo * t as real, k,
                  TicksIn(nframes, frameRate, tempo, t));
  }

  lemma QuotientAbove(a: real, d: real, m: real, k: real, ticks: real)
    requires d > 0.0 && ticks == a / d * m
    ensures ticks > -k <==> a * m > -(k * d)
  {
    var q := a / d;
    assert q * d == a;
    Associate(q, m, d);
    Associate(m, d, 1.0);
    Associate(q, d, m);
    assert ticks * d == a * m;
    Scale(ticks, k, d);
    Associate(d, ticks, 1.0);
    Associate(d, k, 1.0);
    SignOfProduct(ticks + k, d, a * m + k * d);
  }

  lemma SignOfProduct(x: real, d: real, product: real)
    requires d > 0.0 && product == d * x
    ensures x > 0.0 <==> product > 0.0
  {
    ProductSign(x, d);
  }

  /** With -120 beats a minute at a rate of 48000, the position computed one minute into the
      timeline is out of range. */
  lemma NegativeTempoLeavesRange()
    ensures !InRange(FromTicks(Truncate(TicksAt(2880000, 48000, -120.0, 1920)), 4, 1920), 4, 1920)
  {
    RecomputedInRange(2880000, 48000, -120.0, 4, 1920);
  }

  /** So is the position that the first period of a thousand frames leads to from the position at
      frame 0, which is in range. */
  lemma NegativePeriodLeavesRange(p: BBT, n: nat, t: nat)
    requires p == BBT(1, 1, 0, 0) && n == 4 && t == 1920
    ensures InRange(p, n, t) && !InRange(Advance(p, TicksIn(1000, 48000, -120.0, t), n, t), n, t)
  {
    assert -120.0 * t as real == -230400.0;
    MovedOnInRange(p, 1000, 48000, -120.0, n, t);
  }

  /** At frame 0 the computed position is the first tick of the first beat, whatever the tempo. */
  lemma FrameZero(rate: nat, tempo: real, n: nat, t: nat)
    requires rate > 0 && n > 0 && t > 0
    ensures FromTicks(Truncate(TicksAt(0, rate, tempo, t)), n, t) == BBT(1, 1, 0, 0)
  {
    TicksAsProduct(0, rate, tempo, t);
    var d := rate as real * 60.0;
    assert 0 as real / d == 0.0;
    assert TicksAt(0, rate, tempo, t) == 0.0;
  }

  /** Two seconds in at 120 beats a minute, at any rate, four beats have passed: it is the start of
      the second bar, 7680 ticks from the start. So it is if the first period was two seconds. */
  lemma TwoSecondsIn(rate: nat, frames: nat)
    requires rate > 0 && frames == 2 * rate
    ensures FromTicks(Truncate(TicksAt(frames, rate, 120.0, 1920)), 4, 1920) == BBT(2, 1, 0, 7680)
    ensures TicksIn(frames, rate, 120.0, 1920) == 7680.0
  {
    TwoSecondsOfTicks(rate, frames);
    SecondBar(TicksAt(frames, rate, 120.0, 1920), 4, 1920);
  }

  lemma TwoSecondsOfTicks(rate: nat, frames: nat)
    requires rate > 0 && frames == 2 * rate
    ensures TicksAt(frames, rate, 120.0, 1920) == 7680.0 == TicksIn(frames, rate, 120.0, 1920)
  {
    TicksAsProduct(frames, rate, 120.0, 1920);
    PeriodAsProduct(frames, rate, 120.0, 1920);
    TwoOfSixty(rate as real, frames as real);
  }

  lemma SecondBar(ticks: real, n: nat, t: nat)
    requires ticks == 7680.0 && n == 4 && t == 1920
    ensures FromTicks(Truncate(ticks), n, t) == BBT(2, 1, 0, 7680)
  {
    assert Truncate(ticks) == 7680;
  }

  /** And the incremental step gets there from the first beat. */
  lemma TwoSecondsOn(p: BBT, n: nat, t: nat, period: real)
    requires p == BBT(1, 1, 0, 0) && n == 4 && t == 1920 && period == 7680.0
    ensures Advance(p, period, n, t) == BBT(2, 1, 0, 7680)
  {
    AdvanceInRange(p, period, n, t);
    PositionIsUnique(Advance(p, period, n, t), BBT(2, 1, 0, 7680), n, t);
  }

  lemma TwoOfSixty(rate: real, frames: real)
    requires rate > 0.0 && frames == 2.0 * rate
    ensures frames / (rate * 60.0) * (120.0 * 1920.0) == 7680.0
  {
    var d := rate * 60.0;
    assert 1.0 / 30.0 * d == frames;
    SameQuotient(frames / d, 1.0 / 30.0, d);
  }

  /** A tempo that is not negative keeps every position in range, however the callback mixes
      recomputing and moving on. */
  lemma NonNegativeTempoStaysInRange(frame: nat, nframes: nat, frameRate: nat, tempo: real, n: nat, t: nat, p: BBT)
    requires frameRate > 0 && n > 0 && t > 0 && tempo >= 0.0
    ensures InRange(FromTicks(Truncate(TicksAt(frame, frameRate, tempo, t)), n, t), n, t)
    ensures InRange(p, n, t) ==> InRange(Advance(p, TicksIn(nframes, frameRate, tempo, t), n, t), n, t)
  {
    TicksNotNegative(frame, frameRate, tempo, t);
    TicksNotNegative(nframes, frameRate, tempo, t);
    FromTicksInRange(Truncate(TicksAt(frame, frameRate, tempo, t)), n, t);
    if InRange(p, n, t) {
      AdvanceInRange(p, TicksIn(nframes, frameRate, tempo, t), n, t);
    }
  }

  /** A callback that recomputes, after a change of tempo or a jump, or one that moves on. */
  datatype Call = Recomputing(frame: nat, tempo: real) | MovingOn(nframes: nat)

  /** The position after a series of callbacks, and the tempo in force. */
  function AfterCalls(calls: seq<Call>, frameRate: nat, n: nat, t: nat): (BBT, real)
    requires frameRate > 0 && n > 0 && t > 0
  {
    if calls == [] then (BBT(0, 0, 0, 0), 0.0)
    else
      var (p, tempo) := AfterCalls(calls[..|calls| - 1], frameRate, n, t);
      match calls[|calls| - 1]
      case Recomputing(frame, newTempo) => (FromTicks(Truncate(TicksAt(frame, frameRate, newTempo, t)), n, t), newTempo)
      case MovingOn(nframes) => (Advance(p, TicksIn(nframes, frameRate, tempo, t), n, t), tempo)
  }

  /** Over any series of callbacks, tempo changes and jumps included, the position stays in range
      from the first callback on; the first one always recomputes. */
  lemma {:induction false} PositionStaysInRange(calls: seq<Call>, frameRate: nat, n: nat, t: nat)
    requires frameRate > 0 && n > 0 && t > 0
    requires calls != [] && calls[0].Recomputing?
    requires forall k | 0 <= k < |calls| && calls[k].Recomputing? :: calls[k].tempo >= 0.0
    ensures InRange(AfterCalls(calls, frameRate, n, t).0, n, t)
    ensures AfterCalls(calls, frameRate, n, t).1 >= 0.0
  {
    var k := |calls| - 1;
    var (p, tempo) := AfterCalls(calls[..k], frameRate, n, t);
    if k > 0 {
      PositionStaysInRange(calls[..k], frameRate, n, t);
    }
    match calls[k]
    case Recomputing(frame, newTempo) => NonNegativeTempoStaysInRange(frame, 0, frameRate, newTempo, n, t, p);
    case MovingOn(nframes) => NonNegativeTempoStaysInRange(0, nframes, frameRate, tempo, n, t, p);
  }

  lemma DivideSign(a: real, b: real)
    requires b > 0.0
    ensures a >= 0.0 ==> a / b >= 0.0
    ensures a / b * b == a
  {
    ProductSign(a / b, b);
  }

  lemma TimesSign(a: real, b: real)
    requires a >= 0.0 && b >= 0.0
    ensures a * b >= 0.0
  {}

  lemma TicksNotNegative(frames: nat, frameRate: nat, tempo: real, t: nat)
    requires frameRate > 0 && tempo >= 0.0
    ensures TicksAt(frames, frameRate, tempo, t) >= 0.0 && TicksIn(frames, frameRate, tempo, t) >= 0.0
  {
    var minutes := frames as real / (frameRate as real * 60.0);
    DivideSign(frames as real, frameRate as real * 60.0);
    TimesSign(minutes, tempo);
    TimesSign(minutes * tempo, t as real);
    TimesSign(frames as real, t as real);
    TimesSign(frames as real * t as real, tempo);
    DivideSign(frames as real * t as real * tempo, (frameRate * 60) as real);
  }

  /** k periods further on, the absolute computation sees k periods' worth more ticks. */
  lemma TicksAddUp(frame: nat, nframes: nat, k: nat, frameRate: nat, tempo: real, t: nat)
    requires frameRate > 0
    ensures TicksAt(frame + k * nframes, frameRate, tempo, t) ==
            TicksAt(frame, frameRate, tempo, t) + k as real * TicksIn(nframes, frameRate, tempo, t)
  {
    var d := frameRate as real * 60.0;
    assert (frameRate * 60) as real == d;
    var a, b, m := frame as real / d, nframes as real / d, tempo * t as real;
    assert a * d == frame as real && b * d == nframes as real;
    LinearTicks(a, b, k as real, d, (frame + k * nframes) as real);
    TicksAsProduct(frame, frameRate, tempo, t);
    TicksAsProduct(frame + k * nframes, frameRate, tempo, t);
    PeriodAsProduct(nframes, frameRate, tempo, t);
    Scale(a, k as real * b, m);
    Associate(k as real, b, m);
  }

  lemma Associate(a: real, b: real, c: real)
    ensures a * b * c == a * (b * c)
    ensures a * b == b * a
  {}

  lemma LinearTicks(a: real, b: real, k: real, d: real, frames: real)
    requires d > 0.0 && frames == a * d + k * (b * d)
    ensures frames / d == a + k * b
  {
    Associate(k, b, d);
    Scale(a, k * b, d);
    assert (a + k * b) * d == frames;
    SameQuotient(frames / d, a + k * b, d);
  }

  lemma SameQuotient(x: real, y: real, d: real)
    requires d > 0.0 && x * d == y * d
    ensures x == y
  {
    var e := x - y;
    assert e * d == x * d - y * d;
    ProductSign(e, d);
  }

  lemma TicksAsProduct(frame: nat, frameRate: nat, tempo: real, t: nat)
    requires frameRate > 0
    ensures TicksAt(frame, frameRate, tempo, t) == frame as real / (frameRate as real * 60.0) * (tempo * t as real)
  {
    Associate(frame as real / (frameRate as real * 60.0), tempo, t as real);
  }

  lemma PeriodAsProduct(nframes: nat, frameRate: nat, tempo: real, t: nat)
    requires frameRate > 0
    ensures TicksIn(nframes, frameRate, tempo, t) == nframes as real / (frameRate as real * 60.0) * (tempo * t as real)
  {
    var d, m := frameRate as real * 60.0, tempo * t as real;
    assert (frameRate * 60) as real == d;
    var x, y := TicksIn(nframes, frameRate, tempo, t), nframes as real / d * m;
    assert x * d == nframes as real * t as real * tempo;
    Associate(nframes as real, t as real, tempo);
    Associate(t as real, tempo, 1.0);
    assert nframes as real / d * d == nframes as real;
    Associate(nframes as real / d, m, d);
    Associate(m, d, 1.0);
    Associate(nframes as real / d, d, m);
    assert y * d == nframes as real * m;
    SameQuotient(x, y, d);
  }

  /** With tempo, rate and period fixed, k callbacks after an absolute one leave the position
      behind the absolute one by the whole ticks in the fractions thrown away: at most k ticks,
      and none if a period is a whole number of ticks. */
  lemma CallbackDrift(frame: nat, nframes: nat, k: nat, frameRate: nat, tempo: real, n: nat, t: nat)
    requires frameRate > 0 && n > 0 && t > 0 && tempo >= 0.0
    ensures var ticks, period := TicksAt(frame, frameRate, tempo, t), TicksIn(nframes, frameRate, tempo, t);
      FallsBehind(AdvanceMany(FromTicks(Truncate(ticks), n, t), period, n, t, k),
                  FromTicks(Truncate(TicksAt(frame + k * nframes, frameRate, tempo, t)), n, t),
                  ticks, period, n, t, k)
  {
    var ticks, period := TicksAt(frame, frameRate, tempo, t), TicksIn(nframes, frameRate, tempo, t);
    TicksNotNegative(frame, frameRate, tempo, t);
    TicksNotNegative(nframes, frameRate, tempo, t);
    TicksAddUp(frame, nframes, k, frameRate, tempo, t);
    RunDrift(ticks, period, TicksAt(frame + k * nframes, frameRate, tempo, t), n, t, k);
  }
}
