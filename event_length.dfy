/** Event length (`get_ev_length`) on one series: every day is replaced by the length
    of the maximal run of equal consecutive values that contains it. xclim labels
    the runs with the cumulative sum of a change mask and then either counts each
    label (the one-dimensional path) or fills the gaps between the first occurrences
    of the labels (method 2, applied to every column of a multi-dimensional array). */
module EventLength {
  import opened Wrappers
  import EventFlags

  // ---------------------------------------------------------------------------
  // Reference definition: maximal runs of equal values
  // ---------------------------------------------------------------------------

  /** A new run begins at `k`: the first day, or a day whose value differs from the
      day before. */
  predicate IsBreak(ev: seq<int>, k: int)
    requires 0 <= k < |ev|
  {
    k == 0 || ev[k - 1] != ev[k]
  }

  /** First day of the maximal run that contains day `i`. */
  function RunStart(ev: seq<int>, i: nat): (r: nat)
    requires i < |ev|
    ensures r <= i && IsBreak(ev, r)
    ensures forall k :: r <= k <= i ==> ev[k] == ev[i]
    decreases i
  {
    if IsBreak(ev, i) then i else RunStart(ev, i - 1)
  }

  /** One past the last day of the maximal run that contains day `i`. */
  function RunEnd(ev: seq<int>, i: nat): (r: nat)
    requires i < |ev|
    ensures i < r <= |ev| && (r == |ev| || IsBreak(ev, r))
    ensures forall k :: i <= k < r ==> ev[k] == ev[i]
    decreases |ev| - i
  {
    if i == |ev| - 1 || ev[i + 1] != ev[i] then i + 1 else RunEnd(ev, i + 1)
  }

  function RunLength(ev: seq<int>, i: nat): (r: int)
    requires i < |ev|
    ensures 1 <= r <= |ev|
  {
    RunEnd(ev, i) - RunStart(ev, i)
  }

  /** The length of every day's run. */
  function RunLengths(ev: seq<int>): (r: seq<int>)
    ensures |r| == |ev|
  {
    seq(|ev|, i requires 0 <= i < |ev| => RunLength(ev, i))
  }

  /** Every entry is a run length: at least 1 and at most the length of the series,
      and the days of one run carry the same length. */
  lemma RunLengthsBounded(ev: seq<int>, i: nat, j: nat)
    requires i <= j < |ev|
    ensures 1 <= RunLengths(ev)[i] <= |ev|
    ensures (forall k :: i <= k <= j ==> ev[k] == ev[i]) ==> RunLengths(ev)[i] == RunLengths(ev)[j]
  {
    if forall k :: i <= k <= j ==> ev[k] == ev[i] {
      var a := RunStart(ev, i);
      var b := RunEnd(ev, j);
      forall k | a < k < b
        ensures ev[k - 1] == ev[k]
      {
        if k > i {
          assert ev[k - 1] == ev[j] && ev[k] == ev[j] by {
            if k - 1 < j {
              assert ev[k - 1] == ev[i] && ev[j] == ev[i];
            }
          }
        }
      }
      RunBetweenBreaks(ev, a, b, i);
      RunBetweenBreaks(ev, a, b, j);
    }
  }

  /** A stretch that begins and ends at breaks and has no break inside is the run of
      each of its days. */
  lemma RunBetweenBreaks(ev: seq<int>, a: nat, b: nat, k: nat)
    requires a <= k < b <= |ev| && IsBreak(ev, a) && (b == |ev| || IsBreak(ev, b))
    requires forall j :: a < j < b ==> ev[j - 1] == ev[j]
    ensures RunStart(ev, k) == a && RunEnd(ev, k) == b
  {
    StartBetweenBreaks(ev, a, b, k);
    EndBetweenBreaks(ev, a, b, k);
  }

  lemma {:induction false} StartBetweenBreaks(ev: seq<int>, a: nat, b: nat, k: nat)
    requires a <= k < b <= |ev| && IsBreak(ev, a)
    requires forall j :: a < j < b ==> ev[j - 1] == ev[j]
    ensures RunStart(ev, k) == a
    decreases k
  {
    if k > a {
      assert ev[k - 1] == ev[k];
      StartBetweenBreaks(ev, a, b, k - 1);
    }
  }

  lemma {:induction false} EndBetweenBreaks(ev: seq<int>, a: nat, b: nat, k: nat)
    requires a <= k < b <= |ev| && (b == |ev| || IsBreak(ev, b))
    requires forall j :: a < j < b ==> ev[j - 1] == ev[j]
    ensures RunEnd(ev, k) == b
    decreases b - k
  {
    if k < b - 1 {
      assert ev[k] == ev[k + 1];
      EndBetweenBreaks(ev, a, b, k + 1);
    }
  }

  // ---------------------------------------------------------------------------
  // Change mask and cumulative-sum labels
  // ---------------------------------------------------------------------------

  /** 1 on the first day and on each day whose difference to the day before is not
      zero, 0 elsewhere. */
  function ChangeMask(ev: seq<int>): (m: seq<int>)
    ensures |m| == |ev|
  {
    seq(|ev|, i requires 0 <= i < |ev| => if i == 0 then 1 else if ev[i] - ev[i - 1] != 0 then 1 else 0)
  }

  /** Running totals, as numpy's `cumsum`. */
  function CumSum(s: seq<int>): (r: seq<int>)
    ensures |r| == |s|
  {
    seq(|s|, i requires 0 <= i < |s| => EventFlags.Sum(s[..i + 1]))
  }

  /** The run labels (`diff_cumsum`). */
  function Labels(ev: seq<int>): (l: seq<int>)
    ensures |l| == |ev|
  {
    CumSum(ChangeMask(ev))
  }

  /** The labels start at 1. */
  lemma LabelsStartAtOne(ev: seq<int>)
    requires |ev| > 0
    ensures Labels(ev)[0] == 1
  {
    var m := ChangeMask(ev);
    assert m[..1] == [] + [1];
    EventFlags.SumAppend([], 1);
  }

  /** Each label is the one before, plus 1 exactly where the value changes. */
  lemma LabelsStep(ev: seq<int>, i: nat)
    requires 0 < i < |ev|
    ensures Labels(ev)[i] == Labels(ev)[i - 1] + (if IsBreak(ev, i) then 1 else 0)
  {
    var m := ChangeMask(ev);
    assert m[..i + 1] == m[..i] + [m[i]];
    EventFlags.SumAppend(m[..i], m[i]);
  }

  /** The labels never decrease, and two days share a label exactly when the series
      is constant from one to the other, so each maximal run has a label of its own. */
  lemma {:induction false} SameLabelIffConstant(ev: seq<int>, i: nat, j: nat)
    requires i <= j < |ev|
    ensures Labels(ev)[i] <= Labels(ev)[j]
    ensures Labels(ev)[i] == Labels(ev)[j] <==> forall k :: i <= k <= j ==> ev[k] == ev[i]
    decreases j
  {
    if j > i {
      SameLabelIffConstant(ev, i, j - 1);
      LabelsStep(ev, j);
    }
  }

  /** Day `k` carries the label of day `i` exactly when it lies in the run of day `i`. */
  lemma SameLabelIsSameRun(ev: seq<int>, i: nat, k: nat)
    requires i < |ev| && k < |ev|
    ensures Labels(ev)[k] == Labels(ev)[i] <==> RunStart(ev, i) <= k < RunEnd(ev, i)
  {
    var a := RunStart(ev, i);
    var b := RunEnd(ev, i);
    if k <= i {
      SameLabelIffConstant(ev, k, i);
      if k < a {
        assert ev[a - 1] != ev[a];
      }
    } else {
      SameLabelIffConstant(ev, i, k);
      if b <= k {
        assert ev[b - 1] != ev[b];
      }
    }
  }

  /** A day is the first occurrence of its label exactly when a new run begins there. */
  lemma FirstLabelIffBreak(ev: seq<int>, k: nat)
    requires k < |ev|
    ensures Labels(ev)[k] !in Labels(ev)[..k] <==> IsBreak(ev, k)
  {
    var l := Labels(ev);
    if k > 0 {
      LabelsStep(ev, k);
      if IsBreak(ev, k) {
        forall j | 0 <= j < k
          ensures l[j] != l[k]
        {
          SameLabelIffConstant(ev, j, k - 1);
        }
      } else {
        assert l[..k][k - 1] == l[k];
      }
    }
  }

  // ---------------------------------------------------------------------------
  // One-dimensional path: count each label
  // ---------------------------------------------------------------------------

  /** Occurrences of `x` in `s` (pandas `value_counts`). */
  function Count(s: seq<int>, x: int): (r: nat)
    ensures r <= |s|
    ensures r == 0 <==> x !in s
  {
    if |s| == 0 then 0
    else
      assert s == s[..|s| - 1] + [s[|s| - 1]];
      Count(s[..|s| - 1], x) + (if s[|s| - 1] == x then 1 else 0)
  }

  /** A value found exactly on the positions `a` to `b - 1` occurs `b - a` times. */
  lemma {:induction false} CountOfInterval(s: seq<int>, x: int, a: nat, b: nat)
    requires a <= b <= |s|
    requires forall k :: 0 <= k < |s| ==> (s[k] == x <==> a <= k < b)
    ensures Count(s, x) == b - a
  {
    var n := |s|;
    if n > 0 {
      var p := s[..n - 1];
      if b == n {
        if a < n {
          CountOfInterval(p, x, a, n - 1);
        } else {
          CountOfInterval(p, x, n - 1, n - 1);
        }
      } else {
        CountOfInterval(p, x, a, b);
      }
    }
  }

  /** The one-dimensional path: every day gets the number of days that carry its
      label (`s.map(s.value_counts())`). An empty series raises IndexError when its
      first day is read. */
  function LengthsByCount(ev: seq<int>): (r: Option<seq<int>>)
    ensures r.Some? <==> |ev| > 0
  {
    if |ev| == 0 then None
    else
      var l := Labels(ev);
      Some(seq(|ev|, i requires 0 <= i < |ev| => Count(l, l[i])))
  }

  /** Counting labels gives the run lengths. */
  lemma ByCountIsRunLengths(ev: seq<int>)
    requires |ev| > 0
    ensures LengthsByCount(ev) == Some(RunLengths(ev))
  {
    var l := Labels(ev);
    forall i | 0 <= i < |ev|
      ensures Count(l, l[i]) == RunLength(ev, i)
    {
      forall k | 0 <= k < |l|
        ensures l[k] == l[i] <==> RunStart(ev, i) <= k < RunEnd(ev, i)
      {
        SameLabelIsSameRun(ev, i, k);
      }
      CountOfInterval(l, l[i], RunStart(ev, i), RunEnd(ev, i));
    }
    var byCount := LengthsByCount(ev).value;
    assert forall i :: 0 <= i < |ev| ==> byCount[i] == RunLengths(ev)[i];
    assert byCount == RunLengths(ev);
  }

  /** Every day of a segment between two breaks has the segment's length. */
  lemma SegmentLengths(ev: seq<int>, a: nat, b: nat)
    requires a < b <= |ev| && IsBreak(ev, a) && (b == |ev| || IsBreak(ev, b))
    requires forall j :: a < j < b ==> ev[j - 1] == ev[j]
    ensures forall k :: a <= k < b ==> RunLengths(ev)[k] == b - a
  {
    forall k | a <= k < b
      ensures RunLengths(ev)[k] == b - a
    {
      RunBetweenBreaks(ev, a, b, k);
    }
  }

  /** The first docstring example of `get_ev_length`, on a 0/1 series. */
  lemma DocumentedExampleBinary()
    ensures RunLengths([0, 0, 1, 1, 1, 0, 0, 1, 1, 1, 1]) == [2, 2, 3, 3, 3, 2, 2, 4, 4, 4, 4]
  {
    var a := [0, 0, 1, 1, 1, 0, 0, 1, 1, 1, 1];
    SegmentLengths(a, 0, 2);
    SegmentLengths(a, 2, 5);
    SegmentLengths(a, 5, 7);
    SegmentLengths(a, 7, 11);
    assert RunLengths(a) == [2, 2, 3, 3, 3, 2, 2, 4, 4, 4, 4];
  }

  /** The second docstring example of `get_ev_length`: runs of any value are counted. */
  lemma DocumentedExampleMultiValued()
    ensures RunLengths([0, 1, 1, 2, 2, 0, 0, 0]) == [1, 2, 2, 2, 2, 3, 3, 3]
  {
    var b := [0, 1, 1, 2, 2, 0, 0, 0];
    SegmentLengths(b, 0, 1);
    SegmentLengths(b, 1, 3);
    SegmentLengths(b, 3, 5);
    SegmentLengths(b, 5, 8);
    assert RunLengths(b) == [1, 2, 2, 2, 2, 3, 3, 3];
  }

  // ---------------------------------------------------------------------------
  // Method 2: fill between first occurrences
  // ---------------------------------------------------------------------------

  /** The positions where a value occurs for the first time, in increasing order
      (the `return_index` of `np.unique`; see FirstOccurrencesSortedByValue for why
      its order by value is this order on the labels). */
  function FirstOccurrences(v: seq<int>): (ind: seq<nat>)
    ensures forall t :: 0 <= t < |ind| ==> ind[t] < |v|
  {
    if |v| == 0 then []
    else FirstOccurrences(v[..|v| - 1]) + (if v[|v| - 1] in v[..|v| - 1] then [] else [|v| - 1])
  }

  ghost predicate StrictlyIncreasing(ind: seq<nat>) {
    forall s, t :: 0 <= s < t < |ind| ==> ind[s] < ind[t]
  }

  /** The first occurrences are listed in increasing order, and a position is listed
      exactly when its value does not occur earlier. */
  lemma FirstOccurrencesOrdered(v: seq<int>)
    ensures StrictlyIncreasing(FirstOccurrences(v))
    ensures forall k :: 0 <= k < |v| ==> (k in FirstOccurrences(v) <==> v[k] !in v[..k])
  {
    FirstOccurrencesIncreasing(v);
    FirstOccurrencesMembership(v);
  }

  lemma {:induction false} FirstOccurrencesIncreasing(v: seq<int>)
    ensures StrictlyIncreasing(FirstOccurrences(v))
  {
    var n := |v|;
    if n > 0 {
      var p := v[..n - 1];
      var fp := FirstOccurrences(p);
      var tail: seq<nat> := if v[n - 1] in p then [] else [n - 1];
      var f := FirstOccurrences(v);
      assert f == fp + tail;
      FirstOccurrencesIncreasing(p);
      forall s, t | 0 <= s < t < |f|
        ensures f[s] < f[t]
      {
        assert f[s] == fp[s];
        if t < |fp| {
          assert f[t] == fp[t];
        } else {
          assert f[t] == n - 1;
        }
      }
    }
  }

  lemma {:induction false} FirstOccurrencesMembership(v: seq<int>)
    ensures forall k :: 0 <= k < |v| ==> (k in FirstOccurrences(v) <==> v[k] !in v[..k])
  {
    var n := |v|;
    if n > 0 {
      var p := v[..n - 1];
      var fp := FirstOccurrences(p);
      var tail: seq<nat> := if v[n - 1] in p then [] else [n - 1];
      var f := FirstOccurrences(v);
      assert f == fp + tail;
      FirstOccurrencesMembership(p);
      assert n - 1 !in fp;
      forall k | 0 <= k < n
        ensures k in f <==> v[k] !in v[..k]
      {
        if k < n - 1 {
          assert v[..k] == p[..k];
          assert k !in tail;
        } else {
          assert v[..k] == p;
        }
      }
    }
  }

  /** On labels, the first occurrences are listed by increasing label, which is the
      order `np.unique` returns them in. */
  lemma FirstOccurrencesSortedByValue(ev: seq<int>, s: nat, t: nat)
    requires s < t < |FirstOccurrences(Labels(ev))|
    ensures Labels(ev)[FirstOccurrences(Labels(ev))[s]] < Labels(ev)[FirstOccurrences(Labels(ev))[t]]
  {
    var l := Labels(ev);
    var ind := FirstOccurrences(l);
    FirstOccurrencesOrdered(l);
    assert ind[t] in ind;
    SameLabelIffConstant(ev, ind[s], ind[t]);
    assert l[..ind[t]][ind[s]] == l[ind[s]];
  }

  /** The first occurrences of the labels are exactly the breaks of the series, the
      first of them is day 0, and the days from one to the next form a run. */
  lemma BreaksOfLabels(ev: seq<int>)
    requires |ev| > 0
    ensures var ind := FirstOccurrences(Labels(ev));
      && StrictlyIncreasing(ind)
      && (forall k :: 0 <= k < |ev| ==> (k in ind <==> IsBreak(ev, k)))
      && 0 < |ind| && ind[0] == 0
  {
    var l := Labels(ev);
    var ind := FirstOccurrences(l);
    FirstOccurrencesOrdered(l);
    forall k | 0 <= k < |ev|
      ensures k in ind <==> IsBreak(ev, k)
    {
      FirstLabelIffBreak(ev, k);
    }
    assert 0 in ind;
    var t :| 0 <= t < |ind| && ind[t] == 0;
    assert ind[0] <= ind[t];
  }

  /** The first labelled day is day 0. */
  lemma FillStartsAtZero(ev: seq<int>, ind: seq<nat>)
    requires |ev| > 0 && ind == FirstOccurrences(Labels(ev))
    ensures 0 < |ind| && ind[0] == 0
  {
    BreaksOfLabels(ev);
  }

  /** Consecutive first occurrences are increasing. */
  lemma FillAdvances(ev: seq<int>, ind: seq<nat>, t: nat)
    requires |ev| > 0 && ind == FirstOccurrences(Labels(ev)) && 0 < t < |ind|
    ensures ind[t - 1] < ind[t]
  {
    FirstOccurrencesIncreasing(Labels(ev));
  }

  /** Between two consecutive breaks every day's run runs from the first to the
      second. */
  lemma RunBetweenConsecutive(ev: seq<int>, ind: seq<nat>, t: nat, k: nat)
    requires |ev| > 0 && ind == FirstOccurrences(Labels(ev))
    requires 0 < t < |ind| && ind[t - 1] <= k < ind[t]
    ensures RunLength(ev, k) == ind[t] - ind[t - 1]
  {
    BreaksOfLabels(ev);
    NoBreakBetween(ev, ind, t - 1, if t < |ind| then ind[t] else |ev|);
    RunBetweenBreaks(ev, ind[t - 1], ind[t], k);
  }

  /** From the last break to the end of the series is one run. */
  lemma RunAfterLast(ev: seq<int>, ind: seq<nat>, k: nat)
    requires |ev| > 0 && ind == FirstOccurrences(Labels(ev))
    requires |ind| > 0 && ind[|ind| - 1] <= k < |ev|
    ensures RunLength(ev, k) == |ev| - ind[|ind| - 1]
  {
    BreaksOfLabels(ev);
    NoBreakBetween(ev, ind, |ind| - 1, |ev|);
    RunBetweenBreaks(ev, ind[|ind| - 1], |ev|, k);
  }

  lemma NoBreakBetween(ev: seq<int>, ind: seq<nat>, s: nat, b: nat)
    requires |ev| > 0 && ind == FirstOccurrences(Labels(ev))
    requires StrictlyIncreasing(ind) && forall k :: 0 <= k < |ev| ==> (k in ind <==> IsBreak(ev, k))
    requires s < |ind| && b <= |ev|
    requires s + 1 < |ind| ==> b == ind[s + 1]
    requires s + 1 == |ind| ==> b == |ev|
    ensures forall j :: ind[s] < j < b ==> ev[j - 1] == ev[j]
  {
    forall j | ind[s] < j < b
      ensures ev[j - 1] == ev[j]
    {
      forall u | 0 <= u < |ind|
        ensures ind[u] != j
      {
        if u < s {
          assert ind[u] < ind[s];
        } else if u > s + 1 {
          assert ind[s + 1] < ind[u];
        }
      }
      assert j !in ind;
    }
  }

  /** Method 2 on one column: the labels' first occurrences split the series; every
      day before the next first occurrence gets the distance between the two, and the
      days from the last first occurrence on get the distance to the end. */
  method LengthsByFill(ev: seq<int>) returns (r: Option<seq<int>>)
    ensures r == if |ev| == 0 then None else Some(RunLengths(ev))
  {
    if |ev| == 0 {
      return None;
    }
    var v := Labels(ev);
    var ind := FirstOccurrences(v);
    FillStartsAtZero(ev, ind);
    var n := |v|;
    var d := new int[n](_ => 0);
    var i0 := 0;
    var i := 0;
    for t := 0 to |ind|
      invariant t == 0 ==> i0 == 0
      invariant 0 < t ==> i0 == ind[t - 1]
      invariant i == i0 <= n
      invariant forall k :: 0 <= k < i0 ==> d[k] == RunLength(ev, k)
    {
      i := ind[t];
      if 0 < t {
        FillAdvances(ev, ind, t);
      }
      forall k | i0 <= k < i {
        d[k] := i - i0;
      }
      forall k | i0 <= k < i
        ensures d[k] == RunLength(ev, k)
      {
        RunBetweenConsecutive(ev, ind, t, k);
      }
      i0 := i;
    }
    forall k | i <= k < n {
      d[k] := n - i;
    }
    forall k | i <= k < n
      ensures d[k] == RunLength(ev, k)
    {
      RunAfterLast(ev, ind, k);
    }
    assert forall k :: 0 <= k < n ==> d[..][k] == RunLengths(ev)[k];
    assert d[..] == RunLengths(ev);
    r := Some(d[..]);
  }

  /** As written for a multi-dimensional array, the first day of every column is set
      to 1 before the differences are taken, through a view of the input
      (`start.values[:] = 1`), so each column is labelled as if its first value were 1. */
  function LengthsByFillAsWritten(ev: seq<int>): (r: Option<seq<int>>)
    ensures r.Some? <==> |ev| > 0
  {
    if |ev| == 0 then None else Some(RunLengths([1] + ev[1..]))
  }

  /** A column that opens with two equal values other than 1 has its first run split:
      day 0 gets length 1 although its run is at least 2 days long. */
  lemma StartWriteSplitsFirstRun(ev: seq<int>)
    requires 2 <= |ev| && ev[0] == ev[1] && ev[0] != 1
    ensures LengthsByFillAsWritten(ev).value[0] == 1
    ensures 2 <= RunLengths(ev)[0]
  {
    var w := [1] + ev[1..];
    assert w[1] == ev[1];
  }
}
