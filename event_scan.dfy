/**
 * The x-function of the Griffiths drought factor: a scan over a 20-day rainfall window
 * (oldest day first) that finds the rainfall events -- maximal runs of days with more
 * than 2 mm -- and keeps the smallest ratio N^1.3 / (N^1.3 + P - 2) over them, where P
 * is the event's total rainfall and N is the window length minus the window position of
 * the event's peak day (the last one when several days share the peak).
 */
module EventScan {
  import opened RealFunctions

  const WindowLength: nat := 20
  /** A day is part of a rainfall event when its rainfall exceeds this, in mm. */
  const EventThreshold: real := 2.0

  /** The scan's carried state: the length `conseq` of the open event, its total
      rainfall, its peak rainfall, the distance `peakDistance` (N) of its peak day from
      the end of the window, and the running minimum `x`. */
  datatype ScanState = ScanState(conseq: nat, total: real, peak: real, peakDistance: int, x: real)

  /** The state before the first day of a window: no open event and x = 1. */
  function ScanStart(): (r: ScanState)
    ensures ScanInv(r) && r.conseq == 0 && r.x == 1.0
  {
    ScanState(0, 0.0, 0.0, 0, 1.0)
  }

  /** What the scan keeps true of its state: a closed-and-reset event has zero total and
      peak, an open event has its peak distance set, and x is in (0, 1]. */
  predicate ScanInv(s: ScanState) {
    && (s.conseq == 0 ==> s.total == 0.0 && s.peak == 0.0)
    && (s.conseq > 0 ==> EventThreshold < s.total && EventThreshold < s.peak
                         && 1 <= s.peakDistance <= WindowLength)
    && 0.0 < s.x <= 1.0
  }

  /** The ratio an event contributes, from its peak distance N and total rainfall. */
  function EventRatio(n: int, total: real, pow: (real, real) -> real): (r: real)
    requires 1 <= n && EventThreshold < total && IsPower(pow)
    ensures 0.0 < r < 1.0
  {
    var a := pow(n as real, 1.3);
    BelowOne(a, a + total - 2.0);
    a / (a + total - 2.0)
  }

  /** An event day `iw` with rainfall `rain` extends the open event: a day whose
      rainfall equals or exceeds the peak so far becomes the peak (the later day wins a
      tie), and N becomes the window length minus `iw`. */
  function Absorb(s: ScanState, rain: real, iw: nat): (r: ScanState)
    requires ScanInv(s) && iw < WindowLength && rain > EventThreshold
    ensures r.conseq == s.conseq + 1 && r.x == s.x
    ensures EventThreshold < r.total && EventThreshold < r.peak && 1 <= r.peakDistance <= WindowLength
  {
    if rain >= s.peak then ScanState(s.conseq + 1, s.total + rain, rain, WindowLength - iw, s.x)
    else ScanState(s.conseq + 1, s.total + rain, s.peak, s.peakDistance, s.x)
  }

  /** Closing an event takes the minimum of x and the event's ratio and resets the
      event's length, total and peak. */
  function Close(s: ScanState, pow: (real, real) -> real): (r: ScanState)
    requires 1 <= s.peakDistance && EventThreshold < s.total && 0.0 < s.x <= 1.0 && IsPower(pow)
    ensures ScanInv(r) && r.conseq == 0 && r.x <= s.x
  {
    ScanState(0, 0.0, 0.0, s.peakDistance, Min(EventRatio(s.peakDistance, s.total, pow), s.x))
  }

  /** Day `iw` of the window, with rainfall `rain`: extends the open event on an event
      day, and closes the open event on the first non-event day after it or on an event
      day that ends the window. */
  function ScanStep(s: ScanState, rain: real, iw: nat, pow: (real, real) -> real): (r: ScanState)
    requires ScanInv(s) && iw < WindowLength && IsPower(pow)
    ensures ScanInv(r)
  {
    var event := rain > EventThreshold;
    var eventEnd := !event && s.conseq != 0;
    var finalEvent := event && iw == WindowLength - 1;
    var s1 := if event then Absorb(s, rain, iw) else s;
    if eventEnd || finalEvent then Close(s1, pow) else s1
  }

  /** The state after the first `k` days of the window `w`. */
  function ScanAfter(w: seq<real>, k: nat, pow: (real, real) -> real): (r: ScanState)
    requires |w| == WindowLength && k <= WindowLength && IsPower(pow)
    ensures ScanInv(r)
  {
    if k == 0 then ScanStart() else ScanStep(ScanAfter(w, k - 1, pow), w[k - 1], k - 1, pow)
  }

  /** The x-function of a window. */
  function XOfWindow(w: seq<real>, pow: (real, real) -> real): (x: real)
    requires |w| == WindowLength && IsPower(pow)
    ensures 0.0 < x <= 1.0
  {
    ScanAfter(w, WindowLength, pow).x
  }

  // ---------------------------------------------------------------------------
  // Reference definitions: events as maximal runs, their totals and peak days.

  /** The number of consecutive event days that end just before position `k`. */
  function Trailing(w: seq<real>, k: nat): (c: nat)
    requires k <= |w|
    ensures c <= k
    ensures forall i :: k - c <= i < k ==> w[i] > EventThreshold
    ensures k - c == 0 || w[k - c - 1] <= EventThreshold
  {
    if k == 0 || w[k - 1] <= EventThreshold then 0 else 1 + Trailing(w, k - 1)
  }

  /** The total rainfall of days a..b-1. */
  function RunTotal(w: seq<real>, a: nat, b: nat): (r: real)
    requires a <= b <= |w|
    ensures a < b && (forall i :: a <= i < b ==> w[i] > EventThreshold) ==> r > EventThreshold
    decreases b
  {
    if a == b then 0.0 else RunTotal(w, a, b - 1) + w[b - 1]
  }

  /** The peak day of days a..b-1: the last of the days with the largest rainfall. */
  function LastPeak(w: seq<real>, a: nat, b: nat): (m: nat)
    requires a < b <= |w|
    ensures a <= m < b
    decreases b
  {
    if b == a + 1 then a
    else
      var m := LastPeak(w, a, b - 1);
      if w[b - 1] >= w[m] then b - 1 else m
  }

  /** Days a..b-1 form a rainfall event: a maximal run of event days. */
  ghost predicate IsEvent(w: seq<real>, a: int, b: int) {
    && 0 <= a < b <= |w|
    && (forall i :: a <= i < b ==> w[i] > EventThreshold)
    && (a == 0 || w[a - 1] <= EventThreshold)
    && (b == |w| || w[b] <= EventThreshold)
  }

  /** The ratio of the event a..b-1, computed from its definition. */
  function EventRatioOf(w: seq<real>, a: nat, b: nat, pow: (real, real) -> real): real
    requires |w| == WindowLength && IsEvent(w, a, b) && IsPower(pow)
  {
    EventRatio(WindowLength - LastPeak(w, a, b), RunTotal(w, a, b), pow)
  }

  /** An event ending at `b` has been closed by the scan once `k` days are read: on the
      non-event day `b`, or on the last day of the window. */
  ghost predicate ClosedBy(b: int, k: int) {
    b < k || b == k == WindowLength
  }

  /** `x` is the minimum of 1 and the ratios of the events closed after `k` days. */
  ghost predicate MinOverClosed(w: seq<real>, k: nat, x: real, pow: (real, real) -> real)
    requires |w| == WindowLength && IsPower(pow)
  {
    && (forall a: nat, b: nat :: IsEvent(w, a, b) && ClosedBy(b, k) ==> x <= EventRatioOf(w, a, b, pow))
    && (x == 1.0 || exists a: nat, b: nat :: IsEvent(w, a, b) && ClosedBy(b, k) && x == EventRatioOf(w, a, b, pow))
  }

  /** The open event of a state `s` reached after `k` days is the run of event days just
      before `k`: its total is that run's rainfall and its peak is the run's last peak
      day. After the whole window no event is open. */
  ghost predicate OpenShape(w: seq<real>, k: nat, s: ScanState)
    requires |w| == WindowLength && k <= WindowLength
  {
    && (k < WindowLength ==> s.conseq == Trailing(w, k))
    && (k == WindowLength ==> s.conseq == 0)
    && (s.conseq > 0 ==>
          && s.conseq <= k
          && s.total == RunTotal(w, k - s.conseq, k)
          && s.peakDistance == WindowLength - LastPeak(w, k - s.conseq, k)
          && s.peak == w[LastPeak(w, k - s.conseq, k)])
  }

  /** Reading event day `k` starts a new event when none is open: the run is day `k`
      alone. */
  lemma StartShape(w: seq<real>, k: nat, s: ScanState)
    requires |w| == WindowLength && k < WindowLength && w[k] > EventThreshold && ScanInv(s)
    requires OpenShape(w, k, s) && s.conseq == 0
    ensures var r := Absorb(s, w[k], k);
      && r.conseq == Trailing(w, k + 1)
      && r.total == RunTotal(w, k, k + 1)
      && r.peakDistance == WindowLength - LastPeak(w, k, k + 1)
      && r.peak == w[LastPeak(w, k, k + 1)]
  {
    assert Trailing(w, k + 1) == 1;
    assert RunTotal(w, k, k) == 0.0;
  }

  /** Reading event day `k` extends an open event by day `k`: its total and peak day
      become those of the longer run. */
  lemma ExtendShape(w: seq<real>, k: nat, s: ScanState)
    requires |w| == WindowLength && k < WindowLength && w[k] > EventThreshold && ScanInv(s)
    requires OpenShape(w, k, s) && s.conseq > 0
    ensures var r := Absorb(s, w[k], k);
      && r.conseq == Trailing(w, k + 1)
      && r.total == RunTotal(w, k - s.conseq, k + 1)
      && r.peakDistance == WindowLength - LastPeak(w, k - s.conseq, k + 1)
      && r.peak == w[LastPeak(w, k - s.conseq, k + 1)]
  {
    assert Trailing(w, k + 1) == s.conseq + 1;
  }

  /** Reading event day `k` extends the open run by day `k`. */
  lemma AbsorbShape(w: seq<real>, k: nat, s: ScanState)
    requires |w| == WindowLength && k < WindowLength && w[k] > EventThreshold && ScanInv(s)
    requires OpenShape(w, k, s)
    ensures var r := Absorb(s, w[k], k);
      && r.conseq == Trailing(w, k + 1)
      && r.total == RunTotal(w, k + 1 - r.conseq, k + 1)
      && r.peakDistance == WindowLength - LastPeak(w, k + 1 - r.conseq, k + 1)
      && r.peak == w[LastPeak(w, k + 1 - r.conseq, k + 1)]
  {
    if s.conseq == 0 {
      StartShape(w, k, s);
    } else {
      ExtendShape(w, k, s);
    }
  }

  /** One step of the scan keeps the shape of the open event. */
  lemma OpenShapeStep(w: seq<real>, k: nat, s: ScanState, pow: (real, real) -> real)
    requires |w| == WindowLength && k < WindowLength && ScanInv(s) && IsPower(pow)
    requires OpenShape(w, k, s)
    ensures OpenShape(w, k + 1, ScanStep(s, w[k], k, pow))
  {
    var r := ScanStep(s, w[k], k, pow);
    if w[k] > EventThreshold {
      AbsorbShape(w, k, s);
      if k + 1 < WindowLength {
        assert r == Absorb(s, w[k], k);
      }
    } else {
      assert Trailing(w, k + 1) == 0;
    }
  }

  /** The shape of the open event holds after every number of days. */
  lemma {:induction false} OpenEventShape(w: seq<real>, k: nat, pow: (real, real) -> real)
    requires |w| == WindowLength && k <= WindowLength && IsPower(pow)
    ensures OpenShape(w, k, ScanAfter(w, k, pow))
  {
    if k > 0 {
      OpenEventShape(w, k - 1, pow);
      OpenShapeStep(w, k - 1, ScanAfter(w, k - 1, pow), pow);
    }
  }

  /** Days a..b-1 are an event that the scan closes on reading day `k`. */
  ghost predicate NewlyClosed(w: seq<real>, a: int, b: int, k: int) {
    IsEvent(w, a, b) && ClosedBy(b, k + 1) && !ClosedBy(b, k)
  }

  /** An event's start is found by counting back the event days before its end. */
  lemma {:induction false} TrailingOfEvent(w: seq<real>, a: nat, b: nat)
    requires a <= b <= |w| && (forall i :: a <= i < b ==> w[i] > EventThreshold)
    requires a == 0 || w[a - 1] <= EventThreshold
    ensures Trailing(w, b) == b - a
    decreases b - a
  {
    if a < b {
      TrailingOfEvent(w, a, b - 1);
    }
  }

  /** The step over day `k` lowers x to the minimum with the ratio of each event it
      closes, and changes x only when it closes one. */
  ghost predicate ClosesAsScanned(w: seq<real>, k: nat, s: ScanState, pow: (real, real) -> real)
    requires |w| == WindowLength && k < WindowLength && ScanInv(s) && IsPower(pow)
  {
    && (forall a: nat, b: nat :: NewlyClosed(w, a, b, k) ==>
          ScanStep(s, w[k], k, pow).x == Min(EventRatioOf(w, a, b, pow), s.x))
    && (ScanStep(s, w[k], k, pow).x != s.x ==> exists a: nat, b: nat :: NewlyClosed(w, a, b, k))
  }

  /** The step over day `k`: an event it closes is a maximal run, and the new x is the
      minimum of the old x and that event's ratio; a step that closes nothing leaves x
      as it was. */
  lemma ClosingStep(w: seq<real>, k: nat, s: ScanState, pow: (real, real) -> real)
    requires |w| == WindowLength && k < WindowLength && ScanInv(s) && IsPower(pow)
    requires OpenShape(w, k, s)
    ensures forall a: nat, b: nat :: NewlyClosed(w, a, b, k) ==>
              ScanStep(s, w[k], k, pow).x == Min(EventRatioOf(w, a, b, pow), s.x)
    ensures ScanStep(s, w[k], k, pow).x != s.x ==> exists a: nat, b: nat :: NewlyClosed(w, a, b, k)
  {
    if w[k] > EventThreshold && k == WindowLength - 1 {
      CloseAtWindowEnd(w, k, s, pow);
    } else if w[k] <= EventThreshold && s.conseq != 0 {
      CloseAfterRun(w, k, s, pow);
    } else {
      NothingCloses(w, k, s, pow);
    }
  }

  /** An event day that ends the window closes the run that ends there. */
  lemma CloseAtWindowEnd(w: seq<real>, k: nat, s: ScanState, pow: (real, real) -> real)
    requires |w| == WindowLength && k < WindowLength && ScanInv(s) && IsPower(pow)
    requires OpenShape(w, k, s) && w[k] > EventThreshold && k == WindowLength - 1
    ensures ClosesAsScanned(w, k, s, pow)
  {
    var a0 := k - s.conseq;
    WindowEndRatio(w, k, s, pow);
    forall a: nat, b: nat | NewlyClosed(w, a, b, k)
      ensures a == a0 && b == k + 1
    {
      assert b == k + 1;
      TrailingOfEvent(w, a, b);
    }
    assert NewlyClosed(w, a0, k + 1, k);
  }

  /** The run ending on the window's last day is an event, and closing it takes the
      minimum of x and that event's ratio. */
  lemma WindowEndRatio(w: seq<real>, k: nat, s: ScanState, pow: (real, real) -> real)
    requires |w| == WindowLength && k < WindowLength && ScanInv(s) && IsPower(pow)
    requires OpenShape(w, k, s) && w[k] > EventThreshold && k == WindowLength - 1
    ensures s.conseq == Trailing(w, k) && IsEvent(w, k - s.conseq, k + 1)
    ensures ScanStep(s, w[k], k, pow).x == Min(EventRatioOf(w, k - s.conseq, k + 1, pow), s.x)
  {
    var a0 := k - s.conseq;
    var s1 := Absorb(s, w[k], k);
    if s.conseq == 0 {
      StartShape(w, k, s);
    } else {
      ExtendShape(w, k, s);
    }
    var n, total := s1.peakDistance, s1.total;
    assert n == WindowLength - LastPeak(w, a0, k + 1);
    assert total == RunTotal(w, a0, k + 1);
    assert IsEvent(w, a0, k + 1);
    assert EventRatioOf(w, a0, k + 1, pow) == EventRatio(n, total, pow);
    assert ScanStep(s, w[k], k, pow) == Close(s1, pow);
  }

  /** The first day without an event after a run closes the run. */
  lemma CloseAfterRun(w: seq<real>, k: nat, s: ScanState, pow: (real, real) -> real)
    requires |w| == WindowLength && k < WindowLength && ScanInv(s) && IsPower(pow)
    requires OpenShape(w, k, s) && w[k] <= EventThreshold && s.conseq != 0
    ensures ClosesAsScanned(w, k, s, pow)
  {
    var r := ScanStep(s, w[k], k, pow);
    var a0 := k - s.conseq;
    assert r == Close(s, pow);
    assert IsEvent(w, a0, k);
    assert NewlyClosed(w, a0, k, k);
    forall a: nat, b: nat | NewlyClosed(w, a, b, k)
      ensures a == a0 && b == k
    {
      assert b == k;
      TrailingOfEvent(w, a, b);
    }
  }

  /** Any other day closes nothing and leaves x as it was. */
  lemma NothingCloses(w: seq<real>, k: nat, s: ScanState, pow: (real, real) -> real)
    requires |w| == WindowLength && k < WindowLength && ScanInv(s) && IsPower(pow)
    requires OpenShape(w, k, s)
    requires !(w[k] > EventThreshold && k == WindowLength - 1)
    requires !(w[k] <= EventThreshold && s.conseq != 0)
    ensures ClosesAsScanned(w, k, s, pow)
  {
    assert ScanStep(s, w[k], k, pow).x == s.x;
    assert forall a: nat, b: nat :: !NewlyClosed(w, a, b, k);
  }

  /** After `k` days, x is the minimum of 1 and the ratios of the events closed so far. */
  lemma {:induction false} ScanKeepsMinimum(w: seq<real>, k: nat, pow: (real, real) -> real)
    requires |w| == WindowLength && k <= WindowLength && IsPower(pow)
    ensures MinOverClosed(w, k, ScanAfter(w, k, pow).x, pow)
  {
    if k > 0 {
      ScanKeepsMinimum(w, k - 1, pow);
      OpenEventShape(w, k - 1, pow);
      MinimumStep(w, k - 1, ScanAfter(w, k - 1, pow), pow);
    }
  }

  /** One step of the scan takes x from the minimum over the events closed before day
      `k` to the minimum over those closed after it. */
  lemma MinimumStep(w: seq<real>, k: nat, s: ScanState, pow: (real, real) -> real)
    requires |w| == WindowLength && k < WindowLength && ScanInv(s) && IsPower(pow)
    requires OpenShape(w, k, s) && MinOverClosed(w, k, s.x, pow)
    ensures MinOverClosed(w, k + 1, ScanStep(s, w[k], k, pow).x, pow)
  {
    ClosingStep(w, k, s, pow);
    var x := ScanStep(s, w[k], k, pow).x;
    forall a: nat, b: nat | IsEvent(w, a, b) && ClosedBy(b, k + 1)
      ensures x <= EventRatioOf(w, a, b, pow)
    {
      if ClosedBy(b, k) {
        assert s.x <= EventRatioOf(w, a, b, pow);
      } else {
        assert NewlyClosed(w, a, b, k);
      }
    }
    if x != s.x {
      var a: nat, b: nat :| NewlyClosed(w, a, b, k);
      assert IsEvent(w, a, b) && ClosedBy(b, k + 1) && x == EventRatioOf(w, a, b, pow);
    }
  }

  /** The x-function of a window is the smallest ratio over the window's rainfall
      events, or 1 when the window has none. */
  lemma XIsMinimumOverEvents(w: seq<real>, pow: (real, real) -> real)
    requires |w| == WindowLength && IsPower(pow)
    ensures forall a: nat, b: nat :: IsEvent(w, a, b) ==> XOfWindow(w, pow) <= EventRatioOf(w, a, b, pow)
    ensures XOfWindow(w, pow) == 1.0
            || exists a: nat, b: nat :: IsEvent(w, a, b) && XOfWindow(w, pow) == EventRatioOf(w, a, b, pow)
  {
    ScanKeepsMinimum(w, WindowLength, pow);
  }

  /** A window without any day above the event threshold has x = 1, and a window with
      one has x < 1: every event is closed by the end of the window. */
  lemma {:induction false} NoEventIffUnitX(w: seq<real>, pow: (real, real) -> real)
    requires |w| == WindowLength && IsPower(pow)
    ensures XOfWindow(w, pow) == 1.0 <==> forall i :: 0 <= i < |w| ==> w[i] <= EventThreshold
  {
    SeenEventLowersX(w, WindowLength, pow);
    OpenEventShape(w, WindowLength, pow);
    if forall i :: 0 <= i < |w| ==> w[i] <= EventThreshold {
      QuietPrefixKeepsStart(w, WindowLength, pow);
    }
  }

  /** While no event day has been read, the scan stays at its start state. */
  lemma {:induction false} QuietPrefixKeepsStart(w: seq<real>, k: nat, pow: (real, real) -> real)
    requires |w| == WindowLength && k <= WindowLength && IsPower(pow)
    requires forall i :: 0 <= i < k ==> w[i] <= EventThreshold
    ensures ScanAfter(w, k, pow) == ScanStart()
  {
    if k > 0 {
      QuietPrefixKeepsStart(w, k - 1, pow);
    }
  }

  /** Once an event day has been read, the event is still open or x is below 1. */
  lemma {:induction false} SeenEventLowersX(w: seq<real>, k: nat, pow: (real, real) -> real)
    requires |w| == WindowLength && k <= WindowLength && IsPower(pow)
    ensures (exists i :: 0 <= i < k && w[i] > EventThreshold) ==>
              ScanAfter(w, k, pow).conseq > 0 || ScanAfter(w, k, pow).x < 1.0
  {
    if k > 0 {
      SeenEventLowersX(w, k - 1, pow);
    }
  }

  /** The peak day of days a..b-1 has the largest rainfall of them, and every later day
      of them has strictly less: where several days share the peak, the last one sets N. */
  lemma {:induction false} PeakIsLastMaximum(w: seq<real>, a: nat, b: nat, i: nat)
    requires a <= i < b <= |w|
    ensures w[i] <= w[LastPeak(w, a, b)]
    ensures LastPeak(w, a, b) < i ==> w[i] < w[LastPeak(w, a, b)]
    decreases b
  {
    if b > a + 1 && i < b - 1 {
      PeakIsLastMaximum(w, a, b - 1, i);
    }
  }

  /** The inner loop over one window: carries the open event's length, total, peak and
      N, and the running minimum x. */
  method WindowX(pw: seq<real>, pow: (real, real) -> real) returns (x: real)
    requires |pw| == WindowLength && IsPower(pow)
    ensures x == XOfWindow(pw, pow)
  {
    var conseq: nat := 0;
    var pmax := 0.0;
    var total := 0.0;
    var n := 0;
    x := 1.0;
    for iw := 0 to WindowLength
      invariant ScanState(conseq, total, pmax, n, x) == ScanAfter(pw, iw, pow)
    {
      var event := pw[iw] > EventThreshold;
      var eventEnd := !event && conseq != 0;
      var finalEvent := event && iw == WindowLength - 1;
      if event {
        conseq := conseq + 1;
        total := total + pw[iw];
        if pw[iw] >= pmax {
          n := WindowLength - iw;
          pmax := pw[iw];
        }
      }
      if eventEnd || finalEvent {
        var xEvent := EventRatio(n, total, pow);
        x := Min(xEvent, x);
        conseq := 0;
        total := 0.0;
        pmax := 0.0;
      }
    }
  }
}
