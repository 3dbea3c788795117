/**
 * The Keetch-Byram drought index (KBDI) recurrence of one grid cell.
 *
 * Each day the index is lowered by the effective rainfall (the rainfall less the day's
 * runoff) and raised by the evapotranspiration, then clamped to [0, 203.2] mm. The
 * runoff is drawn from a remaining-runoff capacity of 5 mm, which a day without rain
 * restores. Floating-point numbers are modelled as reals; `exp` is a parameter.
 */
module KeetchByram {
  import opened RealFunctions

  /** Upper limit of the index: 8 inches of soil water, in mm. */
  const MaxIndex: real := 203.2
  /** Runoff capacity restored on every day without rain, in mm. */
  const RunoffCapacity: real := 5.0

  /** The state carried from one day to the next. */
  datatype KbdiState = KbdiState(index: real, remainingRunoff: real)

  /** The state before the first day: the initial index and a full runoff capacity. */
  function Initial(kbdi0: real): (r: KbdiState)
    ensures r.index == kbdi0 && r.remainingRunoff == RunoffCapacity
  {
    KbdiState(kbdi0, RunoffCapacity)
  }

  /** Limits an index to [0, MaxIndex]. */
  function Clamp(v: real): (r: real)
    ensures 0.0 <= r <= MaxIndex
    ensures 0.0 <= v <= MaxIndex ==> r == v
    ensures v < 0.0 ==> r == 0.0
    ensures v > MaxIndex ==> r == MaxIndex
  {
    var low := if v < 0.0 then 0.0 else v;
    if low > MaxIndex then MaxIndex else low
  }

  /** The runoff capacity in force on a day: full again on a day without rain. */
  function AvailableRunoff(rain: real, remaining: real): (r: real)
    ensures rain == 0.0 ==> r == RunoffCapacity
    ensures rain != 0.0 ==> r == remaining
    ensures 0.0 <= remaining <= RunoffCapacity ==> 0.0 <= r <= RunoffCapacity
  {
    if rain == 0.0 then RunoffCapacity else remaining
  }

  /** The day's runoff: the rainfall, up to the available capacity. */
  function Runoff(rain: real, available: real): (r: real)
    ensures r <= rain && r <= available
    ensures r == rain || r == available
  {
    if rain < available then rain else available
  }

  /** The part of a day's rainfall that lowers the index. */
  function EffectiveRain(rain: real, remaining: real): (r: real)
    ensures 0.0 <= rain && 0.0 <= remaining ==> 0.0 <= r <= rain
    ensures 0.0 <= rain <= RunoffCapacity && remaining == RunoffCapacity ==> r == 0.0
  {
    rain - Runoff(rain, AvailableRunoff(rain, remaining))
  }

  /** Evapotranspiration of a day, from the index at the end of the previous day, the
      day's maximum temperature and the mean annual rainfall `pa`. It vanishes at
      saturation; below it, it raises the index on a warm day and lowers it otherwise. */
  function Evapotranspiration(exp: real -> real, index: real, tmax: real, pa: real): (r: real)
    requires IsExp(exp)
    ensures index == MaxIndex ==> r == 0.0
    ensures index <= MaxIndex && Evaporative(exp, tmax) ==> 0.0 <= r
    ensures index < MaxIndex && !Evaporative(exp, tmax) ==> r < 0.0
  {
    var deficit := 0.001 * (MaxIndex - index);
    var factor := 0.968 * exp(0.0875 * tmax + 1.5552) - 8.3;
    var divisor := 1.0 + 10.88 * exp(-0.00173 * pa);
    assert 0.0 < divisor;
    if index <= MaxIndex && 0.0 <= factor then
      assert 0.0 <= deficit * factor;
      NonNegativeQuotient(deficit * factor, divisor);
      deficit * factor / divisor
    else if index < MaxIndex && factor < 0.0 then
      assert deficit * factor < 0.0;
      NegativeQuotient(deficit * factor, divisor);
      deficit * factor / divisor
    else
      deficit * factor / divisor
  }

  /** One day of the recurrence. */
  function DayStep(s: KbdiState, rain: real, tmax: real, pa: real, exp: real -> real): (r: KbdiState)
    requires IsExp(exp)
    ensures 0.0 <= r.index <= MaxIndex
    ensures r.remainingRunoff == AvailableRunoff(rain, s.remainingRunoff) - Runoff(rain, AvailableRunoff(rain, s.remainingRunoff))
  {
    var available := AvailableRunoff(rain, s.remainingRunoff);
    var runoff := Runoff(rain, available);
    var et := Evapotranspiration(exp, s.index, tmax, pa);
    KbdiState(Clamp(s.index - (rain - runoff) + et), available - runoff)
  }

  /** The index a day leaves is the previous index less the effective rain plus the
      evapotranspiration, clamped; so rain lowers the index by at most the day's
      rainfall, and never raises it. */
  lemma StepByEffectiveRain(s: KbdiState, rain: real, tmax: real, pa: real, exp: real -> real)
    requires IsExp(exp) && 0.0 <= rain && 0.0 <= s.remainingRunoff
    ensures var et := Evapotranspiration(exp, s.index, tmax, pa);
      && DayStep(s, rain, tmax, pa, exp).index == Clamp(s.index - EffectiveRain(rain, s.remainingRunoff) + et)
      && Clamp(s.index - rain + et) <= DayStep(s, rain, tmax, pa, exp).index <= Clamp(s.index + et)
  {
    var et := Evapotranspiration(exp, s.index, tmax, pa);
    var e := EffectiveRain(rain, s.remainingRunoff);
    assert 0.0 <= e <= rain;
    assert DayStep(s, rain, tmax, pa, exp).index == Clamp(s.index - e + et);
  }

  /** The state after all the days of `p` (rainfall) and `t` (maximum temperature). */
  function Run(s: KbdiState, p: seq<real>, t: seq<real>, pa: real, exp: real -> real): (r: KbdiState)
    requires |p| == |t| && IsExp(exp)
    ensures 0 < |p| ==> 0.0 <= r.index <= MaxIndex
    decreases |p|
  {
    if |p| == 0 then s
    else DayStep(Run(s, p[..|p| - 1], t[..|t| - 1], pa, exp), p[|p| - 1], t[|t| - 1], pa, exp)
  }

  /** The index emitted for each day of `p`, in day order. */
  function Series(s: KbdiState, p: seq<real>, t: seq<real>, pa: real, exp: real -> real): (r: seq<real>)
    requires |p| == |t| && IsExp(exp)
    ensures |r| == |p|
    decreases |p|
  {
    if |p| == 0 then []
    else Series(s, p[..|p| - 1], t[..|t| - 1], pa, exp) + [Run(s, p, t, pa, exp).index]
  }

  /** Every emitted index lies in [0, MaxIndex], whatever the starting state. */
  lemma {:induction false} SeriesInRange(s: KbdiState, p: seq<real>, t: seq<real>, pa: real, exp: real -> real)
    requires |p| == |t| && IsExp(exp)
    ensures forall d :: 0 <= d < |p| ==> 0.0 <= Series(s, p, t, pa, exp)[d] <= MaxIndex
    decreases |p|
  {
    if |p| > 0 {
      SeriesInRange(s, p[..|p| - 1], t[..|t| - 1], pa, exp);
    }
  }

  /** Day `d` of the series is the index of the state reached after days 0..d. */
  lemma {:induction false} SeriesAt(s: KbdiState, p: seq<real>, t: seq<real>, pa: real, exp: real -> real, d: nat)
    requires |p| == |t| && IsExp(exp) && d < |p|
    ensures Series(s, p, t, pa, exp)[d] == Run(s, p[..d + 1], t[..d + 1], pa, exp).index
    decreases |p|
  {
    if d < |p| - 1 {
      SeriesAt(s, p[..|p| - 1], t[..|t| - 1], pa, exp, d);
      assert p[..|p| - 1][..d + 1] == p[..d + 1];
      assert t[..|t| - 1][..d + 1] == t[..d + 1];
    } else {
      assert p[..d + 1] == p && t[..d + 1] == t;
    }
  }

  /** The state after days 0..d is the previous day's state advanced by day `d`: the
      evapotranspiration of day `d` uses the index of day `d - 1`. */
  lemma {:induction false} RunStep(s: KbdiState, p: seq<real>, t: seq<real>, pa: real, exp: real -> real, d: nat)
    requires |p| == |t| && IsExp(exp) && d < |p|
    ensures Run(s, p[..d + 1], t[..d + 1], pa, exp)
         == DayStep(Run(s, p[..d], t[..d], pa, exp), p[d], t[d], pa, exp)
  {
    assert p[..d + 1][..d] == p[..d] && t[..d + 1][..d] == t[..d];
  }

  /** With non-negative rainfall the remaining runoff stays within [0, RunoffCapacity]. */
  lemma {:induction false} RunoffInRange(s: KbdiState, p: seq<real>, t: seq<real>, pa: real, exp: real -> real)
    requires |p| == |t| && IsExp(exp)
    requires 0.0 <= s.remainingRunoff <= RunoffCapacity
    requires forall i :: 0 <= i < |p| ==> 0.0 <= p[i]
    ensures 0.0 <= Run(s, p, t, pa, exp).remainingRunoff <= RunoffCapacity
    decreases |p|
  {
    if |p| > 0 {
      RunoffInRange(s, p[..|p| - 1], t[..|t| - 1], pa, exp);
    }
  }

  /** Two consecutive days of the series: day `d` emits the index of state `q` reached
      after days 0..d, and day `d + 1` emits the index of `q` advanced by day `d + 1`. */
  lemma SeriesNext(s: KbdiState, p: seq<real>, t: seq<real>, pa: real, exp: real -> real, d: nat)
    requires |p| == |t| && IsExp(exp) && d + 1 < |p|
    ensures var q := Run(s, p[..d + 1], t[..d + 1], pa, exp);
            Series(s, p, t, pa, exp)[d] == q.index &&
            Series(s, p, t, pa, exp)[d + 1] == DayStep(q, p[d + 1], t[d + 1], pa, exp).index
  {
    SeriesAt(s, p, t, pa, exp, d);
    SeriesAt(s, p, t, pa, exp, d + 1);
    RunStep(s, p, t, pa, exp, d + 1);
  }

  /** A day without rain ends with the full runoff capacity: the capacity is restored
      before the day's runoff, and the day's runoff is zero. */
  lemma DryDayRestoresRunoff(s: KbdiState, p: seq<real>, t: seq<real>, pa: real, exp: real -> real, d: nat)
    requires |p| == |t| && IsExp(exp) && d < |p| && p[d] == 0.0
    ensures Run(s, p[..d + 1], t[..d + 1], pa, exp).remainingRunoff == RunoffCapacity
  {
    RunStep(s, p, t, pa, exp, d);
  }

  /** Rain of at most 5 mm on the day after a day without rain is all runoff: the day's
      index is the previous index plus the evapotranspiration, clamped. */
  lemma SmallRainAfterDryDay(s: KbdiState, p: seq<real>, t: seq<real>, pa: real, exp: real -> real, d: nat)
    requires |p| == |t| && IsExp(exp) && 0 < d < |p|
    requires p[d - 1] == 0.0 && 0.0 <= p[d] <= RunoffCapacity
    ensures var prev := Run(s, p[..d], t[..d], pa, exp).index;
            Series(s, p, t, pa, exp)[d] == Clamp(prev + Evapotranspiration(exp, prev, t[d], pa))
  {
    DryDayRestoresRunoff(s, p, t, pa, exp, d - 1);
    RunStep(s, p, t, pa, exp, d);
    SeriesAt(s, p, t, pa, exp, d);
    var prev := Run(s, p[..d], t[..d], pa, exp);
    assert EffectiveRain(p[d], prev.remainingRunoff) == 0.0;
  }

  /** A day without rain at a saturated index leaves the index saturated, whatever the
      temperature. */
  lemma SaturatedDryDay(s: KbdiState, tmax: real, pa: real, exp: real -> real)
    requires IsExp(exp) && s.index == MaxIndex
    ensures DayStep(s, 0.0, tmax, pa, exp).index == MaxIndex
  {
    assert Evapotranspiration(exp, s.index, tmax, pa) == 0.0;
  }

  /** A day warm enough for the evapotranspiration to be non-negative. */
  ghost predicate Evaporative(exp: real -> real, tmax: real) {
    0.968 * exp(0.0875 * tmax + 1.5552) >= 8.3
  }

  /** On a warm day without rain the index does not decrease. */
  lemma DryWarmDayNonDecreasing(s: KbdiState, tmax: real, pa: real, exp: real -> real)
    requires IsExp(exp) && 0.0 <= s.index <= MaxIndex && Evaporative(exp, tmax)
    ensures s.index <= DayStep(s, 0.0, tmax, pa, exp).index
  {
    assert 0.0 <= Evapotranspiration(exp, s.index, tmax, pa);
  }

  /** Over a spell of warm days without rain, starting from an index in range, the
      emitted index never decreases from one day to the next. */
  lemma DrySpellNonDecreasing(s: KbdiState, p: seq<real>, t: seq<real>, pa: real, exp: real -> real, d: nat)
    requires |p| == |t| && IsExp(exp) && 0.0 <= s.index <= MaxIndex
    requires forall i :: 0 <= i < |p| ==> p[i] == 0.0 && Evaporative(exp, t[i])
    requires d + 1 < |p|
    ensures Series(s, p, t, pa, exp)[d] <= Series(s, p, t, pa, exp)[d + 1]
  {
    SeriesNext(s, p, t, pa, exp, d);
    DryWarmDayNonDecreasing(Run(s, p[..d + 1], t[..d + 1], pa, exp), t[d + 1], pa, exp);
  }

  /** Without rain, once the emitted index reaches MaxIndex it stays there. */
  lemma {:induction false} DrySpellStaysSaturated(s: KbdiState, p: seq<real>, t: seq<real>, pa: real, exp: real -> real, d: nat, e: nat)
    requires |p| == |t| && IsExp(exp)
    requires forall i :: 0 <= i < |p| ==> p[i] == 0.0
    requires d <= e < |p| && Series(s, p, t, pa, exp)[d] == MaxIndex
    ensures Series(s, p, t, pa, exp)[e] == MaxIndex
    decreases e - d
  {
    if d < e {
      SeriesNext(s, p, t, pa, exp, d);
      SaturatedDryDay(Run(s, p[..d + 1], t[..d + 1], pa, exp), t[d + 1], pa, exp);
      DrySpellStaysSaturated(s, p, t, pa, exp, d + 1, e);
    }
  }

  /** Running two stretches of days one after the other, carrying the whole state
      (index and remaining runoff), is running their concatenation. */
  lemma {:induction false} RunAppend(s: KbdiState, p1: seq<real>, t1: seq<real>, p2: seq<real>, t2: seq<real>, pa: real, exp: real -> real)
    requires |p1| == |t1| && |p2| == |t2| && IsExp(exp)
    ensures Run(s, p1 + p2, t1 + t2, pa, exp) == Run(Run(s, p1, t1, pa, exp), p2, t2, pa, exp)
    decreases |p2|
  {
    if |p2| == 0 {
      assert p1 + p2 == p1 && t1 + t2 == t1;
    } else {
      var n := |p2| - 1;
      var q, u := p1 + p2, t1 + t2;
      assert q[..|q| - 1] == p1 + p2[..n];
      assert u[..|u| - 1] == t1 + t2[..n];
      assert q[|q| - 1] == p2[n] && u[|u| - 1] == t2[n];
      RunAppend(s, p1, t1, p2[..n], t2[..n], pa, exp);
    }
  }

  /** The series of a concatenation is the first stretch's series followed by the
      series of the second stretch started from the first stretch's final state. */
  lemma SeriesAppend(s: KbdiState, p1: seq<real>, t1: seq<real>, p2: seq<real>, t2: seq<real>, pa: real, exp: real -> real)
    requires |p1| == |t1| && |p2| == |t2| && IsExp(exp)
    ensures Series(s, p1 + p2, t1 + t2, pa, exp)
         == Series(s, p1, t1, pa, exp) + Series(Run(s, p1, t1, pa, exp), p2, t2, pa, exp)
  {
    var whole := Series(s, p1 + p2, t1 + t2, pa, exp);
    var joined := Series(s, p1, t1, pa, exp) + Series(Run(s, p1, t1, pa, exp), p2, t2, pa, exp);
    forall d | 0 <= d < |p1| + |p2|
      ensures whole[d] == joined[d]
    {
      if d < |p1| {
        SeriesAppendFirst(s, p1, t1, p2, t2, pa, exp, d);
      } else {
        SeriesAppendSecond(s, p1, t1, p2, t2, pa, exp, d - |p1|);
      }
    }
  }

  /** Days of the first stretch are emitted as if the second stretch were absent. */
  lemma SeriesAppendFirst(s: KbdiState, p1: seq<real>, t1: seq<real>, p2: seq<real>, t2: seq<real>, pa: real, exp: real -> real, d: nat)
    requires |p1| == |t1| && |p2| == |t2| && IsExp(exp) && d < |p1|
    ensures Series(s, p1 + p2, t1 + t2, pa, exp)[d] == Series(s, p1, t1, pa, exp)[d]
  {
    SeriesAt(s, p1 + p2, t1 + t2, pa, exp, d);
    SeriesAt(s, p1, t1, pa, exp, d);
    assert (p1 + p2)[..d + 1] == p1[..d + 1];
    assert (t1 + t2)[..d + 1] == t1[..d + 1];
  }

  /** Day `e` of the second stretch is emitted as from the state the first one leaves. */
  lemma SeriesAppendSecond(s: KbdiState, p1: seq<real>, t1: seq<real>, p2: seq<real>, t2: seq<real>, pa: real, exp: real -> real, e: nat)
    requires |p1| == |t1| && |p2| == |t2| && IsExp(exp) && e < |p2|
    ensures Series(s, p1 + p2, t1 + t2, pa, exp)[|p1| + e]
         == Series(Run(s, p1, t1, pa, exp), p2, t2, pa, exp)[e]
  {
    var d := |p1| + e;
    var q, u := p2[..e + 1], t2[..e + 1];
    assert (p1 + p2)[..d + 1] == p1 + q;
    assert (t1 + t2)[..d + 1] == t1 + u;
    SeriesAt(s, p1 + p2, t1 + t2, pa, exp, d);
    SeriesAt(Run(s, p1, t1, pa, exp), p2, t2, pa, exp, e);
    RunAppend(s, p1, t1, q, u, pa, exp);
  }

  /** Restarting from the last emitted index alone reproduces the single run when the
      first stretch ends on a day without rain: that day leaves the runoff capacity
      full, which is the state a fresh start assumes. */
  lemma ContinuationAfterDryDay(kbdi0: real, p1: seq<real>, t1: seq<real>, p2: seq<real>, t2: seq<real>, pa: real, exp: real -> real)
    requires |p1| == |t1| && |p2| == |t2| && IsExp(exp)
    requires 0 < |p1| && p1[|p1| - 1] == 0.0
    ensures var first := Series(Initial(kbdi0), p1, t1, pa, exp);
      Series(Initial(kbdi0), p1 + p2, t1 + t2, pa, exp)
        == first + Series(Initial(first[|p1| - 1]), p2, t2, pa, exp)
  {
    var n := |p1|;
    SeriesAppend(Initial(kbdi0), p1, t1, p2, t2, pa, exp);
    DryDayRestoresRunoff(Initial(kbdi0), p1, t1, pa, exp, n - 1);
    SeriesAt(Initial(kbdi0), p1, t1, pa, exp, n - 1);
    assert p1[..n] == p1 && t1[..n] == t1;
  }

  /** The day loop of one cell: writes the index of every day into `kbdi`, in day order,
      starting from `kbdi0` and a full runoff capacity. */
  method KeetchByramDroughtIndex(p: array<real>, t: array<real>, pa: real, kbdi0: real, exp: real -> real, kbdi: array<real>)
    requires p.Length == t.Length == kbdi.Length
    requires kbdi != p && kbdi != t
    requires IsExp(exp)
    modifies kbdi
    ensures kbdi[..] == Series(Initial(kbdi0), p[..], t[..], pa, exp)
    ensures forall d :: 0 <= d < kbdi.Length ==> 0.0 <= kbdi[d] <= MaxIndex
  {
    var index := kbdi0;
    var rr := RunoffCapacity;
    for d := 0 to p.Length
      invariant kbdi[..d] == Series(Initial(kbdi0), p[..d], t[..d], pa, exp)
      invariant KbdiState(index, rr) == Run(Initial(kbdi0), p[..d], t[..d], pa, exp)
    {
      ghost var prev := KbdiState(index, rr);
      assert p[..d + 1][..d] == p[..d] && t[..d + 1][..d] == t[..d];
      if p[d] == 0.0 {
        rr := RunoffCapacity;
      }
      var r;
      if p[d] < rr {
        r := p[d];
      } else {
        r := rr;
      }
      var peff := p[d] - r;
      var et := Evapotranspiration(exp, index, t[d], pa);
      index := index - peff + et;
      if index < 0.0 {
        index := 0.0;
      }
      if index > MaxIndex {
        index := MaxIndex;
      }
      rr := rr - r;
      assert KbdiState(index, rr) == DayStep(prev, p[d], t[d], pa, exp);
      kbdi[d] := index;
      assert kbdi[..d + 1] == kbdi[..d] + [index];
    }
    assert p[..p.Length] == p[..] && t[..t.Length] == t[..];
    SeriesInRange(Initial(kbdi0), p[..], t[..], pa, exp);
  }
}
