/**
 * The Griffiths drought factor of one grid cell: for every day from the 20th on, the
 * x-function of the trailing 20-day rainfall window, limited according to the soil
 * moisture deficit of the day, turned into a drought factor and capped at 10.
 */
module Griffiths {
  import opened Wrappers
  import opened RealFunctions
  import opened EventScan
  import KeetchByram

  /** The first day (0-based) with a full 20-day window. */
  const FirstDay: nat := WindowLength - 1
  /** Limiting code of the continuous limit on x (equation 14 of Finkele et al., 2006). */
  const XLimCode: int := 0
  /** Limiting code of the discrete ceilings on the drought factor (equation 13). */
  const DiscreteCode: int := 1
  /** The final cap of every drought factor. */
  const MaxFactor: real := 10.0

  /** The error raised for a limiting function other than "xlim" or "discrete". */
  datatype LimitingError = InvalidLimitingFunc(name: string)

  /** The limiting code selected by the name of a limiting function. */
  function LimitingCode(name: string): (r: Result<int, LimitingError>)
    ensures r == Ok(XLimCode) <==> name == "xlim"
    ensures r == Ok(DiscreteCode) <==> name == "discrete"
    ensures r.Err? <==> name != "xlim" && name != "discrete"
  {
    if name == "xlim" then Ok(XLimCode)
    else if name == "discrete" then Ok(DiscreteCode)
    else Err(InvalidLimitingFunc(name))
  }

  /** The continuous limit on x is defined: its divisor is not zero. The divisor
      vanishes at one deficit below 20 and at one above 20, and only there. */
  predicate XLimitDefined(smd: real) {
    if smd < 20.0 then 1.0 + 0.1135 * smd != 0.0 else 270.525 - 1.267 * smd != 0.0
  }

  /** Every deficit the KBDI can take leaves the continuous limit defined. */
  lemma KbdiRangeDefinesXLimit(smd: real)
    requires 0.0 <= smd <= KeetchByram.MaxIndex
    ensures XLimitDefined(smd)
  {
  }

  /** The continuous limit on x, from the soil moisture deficit. */
  function XLimit(smd: real): (r: real)
    requires XLimitDefined(smd)
    ensures 0.0 <= smd <= KeetchByram.MaxIndex ==> 0.0 < r
  {
    if smd < 20.0 then 1.0 / (1.0 + 0.1135 * smd) else 75.0 / (270.525 - 1.267 * smd)
  }

  /** The discrete ceiling on the drought factor: 6, 7, 8, 9 or 10 by deficit band, each
      band closed below and open above. */
  function DiscreteCeiling(smd: real): (r: real)
    ensures 6.0 <= r <= MaxFactor
  {
    if smd < 25.0 then 6.0
    else if smd < 42.0 then 7.0
    else if smd < 65.0 then 8.0
    else if smd < 100.0 then 9.0
    else 10.0
  }

  /** A larger deficit never lowers the discrete ceiling, and each band owns its lower
      boundary. */
  lemma DiscreteCeilingMonotone(smd1: real, smd2: real)
    requires smd1 <= smd2
    ensures DiscreteCeiling(smd1) <= DiscreteCeiling(smd2)
    ensures DiscreteCeiling(25.0) == 7.0 && DiscreteCeiling(42.0) == 8.0
    ensures DiscreteCeiling(65.0) == 9.0 && DiscreteCeiling(100.0) == 10.0
  {
  }

  /** The x used for the drought factor: under the continuous policy, at most the limit. */
  function LimitedX(x: real, smd: real, lim: int): (r: real)
    requires lim == XLimCode ==> XLimitDefined(smd)
    ensures r <= x
    ensures lim == XLimCode ==> r <= XLimit(smd) && (r == x || r == XLimit(smd))
    ensures lim != XLimCode ==> r == x
  {
    if lim == XLimCode && x > XLimit(smd) then XLimit(smd) else x
  }

  /** The divisor of the drought-factor formula is positive for every x. */
  lemma QuadraticPositive(x: real)
    ensures 0.0 < 40.0 * x * x + x + 1.0
  {
    if x >= 0.0 {
      assert 0.0 <= x * x;
    } else if x >= -1.0 {
      assert 0.0 < x * x;
    } else {
      assert 0.0 < x * (x + 1.0);
      assert -x < x * x;
    }
  }

  /** The unlimited drought factor of x and the deficit. For a positive x and a deficit
      of at least -30 mm it is not negative. */
  function RawFactor(x: real, smd: real, exp: real -> real): (r: real)
    requires IsExp(exp)
    ensures 0.0 < x && -30.0 <= smd ==> 0.0 <= r
  {
    var a := 1.0 - exp(-(smd + 30.0) / 40.0);
    var b := 41.0 * x * x + x;
    var c := 40.0 * x * x + x + 1.0;
    QuadraticPositive(x);
    if 0.0 < x && -30.0 <= smd then
      assert 0.0 <= x * x;
      assert 0.0 <= a && 0.0 < b;
      assert 0.0 <= 10.5 * a * b;
      NonNegativeQuotient(10.5 * a * b, c);
      10.5 * a * b / c
    else
      10.5 * a * b / c
  }

  /** The drought factor after the discrete ceiling (under the discrete policy) and the
      final cap at 10. */
  function CappedFactor(dfw: real, smd: real, lim: int): (r: real)
    ensures r <= MaxFactor && r <= dfw
    ensures lim == DiscreteCode ==> r <= DiscreteCeiling(smd)
    ensures lim != DiscreteCode && dfw <= MaxFactor ==> r == dfw
    ensures lim == DiscreteCode && dfw <= DiscreteCeiling(smd) ==> r == dfw
    ensures 0.0 <= dfw ==> 0.0 <= r
    ensures lim == DiscreteCode && dfw > DiscreteCeiling(smd) ==> r == DiscreteCeiling(smd)
    ensures lim != DiscreteCode && dfw > MaxFactor ==> r == MaxFactor
  {
    var limited := if lim == DiscreteCode && dfw > DiscreteCeiling(smd) then DiscreteCeiling(smd) else dfw;
    if limited > MaxFactor then MaxFactor else limited
  }

  /** The drought factor of a 20-day window and the deficit of its last day. */
  function WindowFactor(w: seq<real>, smd: real, lim: int, exp: real -> real, pow: (real, real) -> real): (r: real)
    requires |w| == WindowLength && IsExp(exp) && IsPower(pow)
    requires lim == XLimCode ==> XLimitDefined(smd)
    ensures r <= MaxFactor
    ensures lim == DiscreteCode ==> r <= DiscreteCeiling(smd)
  {
    CappedFactor(RawFactor(LimitedX(XOfWindow(w, pow), smd, lim), smd, exp), smd, lim)
  }

  /** The drought factor of day `d`, from the window of days d-19..d. */
  function FactorAt(p: seq<real>, smd: seq<real>, lim: int, d: nat, exp: real -> real, pow: (real, real) -> real): (r: real)
    requires |p| == |smd| && FirstDay <= d < |p| && IsExp(exp) && IsPower(pow)
    requires lim == XLimCode ==> XLimitDefined(smd[d])
    ensures r <= MaxFactor
    ensures lim == DiscreteCode ==> r <= DiscreteCeiling(smd[d])
  {
    WindowFactor(p[d - FirstDay .. d + 1], smd[d], lim, exp, pow)
  }

  /** A window without any event day has x = 1: its drought factor is the formula at
      x = 1, limited and capped. */
  lemma NoEventFactor(w: seq<real>, smd: real, lim: int, exp: real -> real, pow: (real, real) -> real)
    requires |w| == WindowLength && IsExp(exp) && IsPower(pow)
    requires lim == XLimCode ==> XLimitDefined(smd)
    requires forall i :: 0 <= i < |w| ==> w[i] <= EventThreshold
    ensures WindowFactor(w, smd, lim, exp, pow) == CappedFactor(RawFactor(LimitedX(1.0, smd, lim), smd, exp), smd, lim)
  {
    NoEventIffUnitX(w, pow);
  }

  /** For a deficit in the KBDI's range, under either policy, the drought factor of every
      window lies in [0, 10]. */
  lemma WindowFactorInRange(w: seq<real>, smd: real, lim: int, exp: real -> real, pow: (real, real) -> real)
    requires |w| == WindowLength && IsExp(exp) && IsPower(pow)
    requires 0.0 <= smd <= KeetchByram.MaxIndex
    ensures XLimitDefined(smd)
    ensures 0.0 <= WindowFactor(w, smd, lim, exp, pow) <= MaxFactor
  {
    KbdiRangeDefinesXLimit(smd);
    var x := LimitedX(XOfWindow(w, pow), smd, lim);
    assert 0.0 < x;
  }

  /** Feeding the KBDI series of the same days as the soil moisture deficit gives a
      drought factor in [0, 10] on every day from the 20th on. */
  lemma KbdiDrivenFactorInRange(p: seq<real>, t: seq<real>, pa: real, kbdi0: real, lim: int,
                                exp: real -> real, pow: (real, real) -> real, d: nat)
    requires |p| == |t| && FirstDay <= d < |p| && IsExp(exp) && IsPower(pow)
    ensures var smd := KeetchByram.Series(KeetchByram.Initial(kbdi0), p, t, pa, exp);
      && XLimitDefined(smd[d])
      && 0.0 <= FactorAt(p, smd, lim, d, exp, pow) <= MaxFactor
  {
    var smd := KeetchByram.Series(KeetchByram.Initial(kbdi0), p, t, pa, exp);
    KeetchByram.SeriesInRange(KeetchByram.Initial(kbdi0), p, t, pa, exp);
    assert 0.0 <= smd[d] <= KeetchByram.MaxIndex;
    WindowFactorInRange(p[d - FirstDay .. d + 1], smd[d], lim, exp, pow);
  }

  /** The day loop of one cell: writes the drought factor of every day from the 20th on
      into `df`, and leaves the first 19 slots as they were. */
  method DroughtFactorDays(p: array<real>, smd: array<real>, lim: int,
                           exp: real -> real, pow: (real, real) -> real, df: array<real>)
    requires p.Length == smd.Length == df.Length
    requires df != p && df != smd
    requires IsExp(exp) && IsPower(pow)
    requires lim == XLimCode ==> forall d :: FirstDay <= d < smd.Length ==> XLimitDefined(smd[d])
    modifies df
    ensures forall d :: FirstDay <= d < df.Length ==> df[d] == FactorAt(p[..], smd[..], lim, d, exp, pow)
    ensures forall d :: 0 <= d < df.Length && d < FirstDay ==> df[d] == old(df[d])
  {
    var d := FirstDay;
    while d < p.Length
      invariant FirstDay <= d
      invariant forall e :: FirstDay <= e < d && e < df.Length ==> df[e] == FactorAt(p[..], smd[..], lim, e, exp, pow)
      invariant forall e :: 0 <= e < df.Length && e < FirstDay ==> df[e] == old(df[e])
    {
      var pw := p[d - FirstDay .. d + 1];
      var x := WindowX(pw, pow);
      if lim == XLimCode {
        var xlim := XLimit(smd[d]);
        if x > xlim {
          x := xlim;
        }
      }
      assert x == LimitedX(XOfWindow(pw, pow), smd[d], lim);
      var dfw := RawFactor(x, smd[d], exp);
      ghost var raw := dfw;
      if lim == DiscreteCode {
        var dflim := DiscreteCeiling(smd[d]);
        if dfw > dflim {
          dfw := dflim;
        }
      }
      if dfw > MaxFactor {
        dfw := MaxFactor;
      }
      assert dfw == CappedFactor(raw, smd[d], lim);
      assert dfw == WindowFactor(pw, smd[d], lim, exp, pow);
      df[d] := dfw;
      assert pw == p[..][d - FirstDay .. d + 1];
      d := d + 1;
    }
  }

  /** The drought factor series of a cell: the limiting function is checked first, and
      the result holds the days from the 20th on (none when there are fewer days). */
  method GriffithsDroughtFactor(pr: array<real>, smd: array<real>, limitingFunc: string,
                                exp: real -> real, pow: (real, real) -> real)
    returns (r: Result<seq<real>, LimitingError>)
    requires pr.Length == smd.Length
    requires IsExp(exp) && IsPower(pow)
    requires limitingFunc == "xlim" ==> forall d :: FirstDay <= d < smd.Length ==> XLimitDefined(smd[d])
    ensures r.Err? <==> limitingFunc != "xlim" && limitingFunc != "discrete"
    ensures r.Err? ==> r.error == InvalidLimitingFunc(limitingFunc)
    ensures r.Ok? ==> |r.value| == (if pr.Length < FirstDay then 0 else pr.Length - FirstDay)
    ensures r.Ok? ==> forall k :: 0 <= k < |r.value| ==>
              && r.value[k] == FactorAt(pr[..], smd[..], LimitingCode(limitingFunc).value, k + FirstDay, exp, pow)
              && r.value[k] <= MaxFactor
  {
    var lim;
    if limitingFunc == "xlim" {
      lim := XLimCode;
    } else if limitingFunc == "discrete" {
      lim := DiscreteCode;
    } else {
      return Err(InvalidLimitingFunc(limitingFunc));
    }
    var df := new real[pr.Length];
    DroughtFactorDays(pr, smd, lim, exp, pow, df);
    if df.Length < FirstDay {
      r := Ok([]);
    } else {
      r := Ok(df[FirstDay..]);
    }
  }
}
