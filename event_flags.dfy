/** Flags for the first and last day of each event in a one-dimensional series
    (`get_ev_start` and `get_ev_end`). The series holds 1 on event days and 0
    elsewhere; the flags are read off its first differences. */
module EventFlags {
  import opened Wrappers

  /** Position `i` is the last day of a run of event days. */
  ghost predicate IsRunEnd(ev: seq<int>, i: int)
    requires 0 <= i < |ev|
  {
    ev[i] == 1 && (i == |ev| - 1 || ev[i + 1] != 1)
  }

  /** Position `i` is the first day of a run of event days. */
  ghost predicate IsRunStart(ev: seq<int>, i: int)
    requires 0 <= i < |ev|
  {
    ev[i] == 1 && (i == 0 || ev[i - 1] != 1)
  }

  ghost predicate IsBinary(ev: seq<int>) {
    forall i :: 0 <= i < |ev| ==> ev[i] == 0 || ev[i] == 1
  }

  /** `get_ev_end`: 1 where the difference to the next day is -1 and 0 elsewhere,
      shifted back one day, with the value of the last day appended. An empty series
      has no last day, and xclim raises IndexError there. */
  function EventEnds(ev: seq<int>): (r: Option<seq<int>>)
    ensures r.Some? <==> |ev| > 0
    ensures r.Some? ==> |r.value| == |ev|
  {
    if |ev| == 0 then None
    else Some(seq(|ev|, i requires 0 <= i < |ev| =>
      if i == |ev| - 1 then ev[i] else if ev[i + 1] - ev[i] == -1 then 1 else 0))
  }

  /** `get_ev_start`: the value of the first day, followed by 1 where the difference
      to the previous day is 1 and 0 elsewhere. An empty series has no first day, and
      xclim raises IndexError there. */
  function EventStarts(ev: seq<int>): (r: Option<seq<int>>)
    ensures r.Some? <==> |ev| > 0
    ensures r.Some? ==> |r.value| == |ev|
  {
    if |ev| == 0 then None
    else Some(seq(|ev|, i requires 0 <= i < |ev| =>
      if i == 0 then ev[0] else if ev[i] - ev[i - 1] == 1 then 1 else 0))
  }

  /** On a 0/1 series the end flags mark exactly the last days of events. */
  lemma EndsMarkRunEnds(ev: seq<int>, i: int)
    requires IsBinary(ev) && 0 <= i < |ev|
    ensures EventEnds(ev).value[i] == 0 || EventEnds(ev).value[i] == 1
    ensures EventEnds(ev).value[i] == 1 <==> IsRunEnd(ev, i)
  {
    if i < |ev| - 1 {
      assert ev[i] == 0 || ev[i] == 1;
      assert ev[i + 1] == 0 || ev[i + 1] == 1;
    }
  }

  /** On a 0/1 series the start flags mark exactly the first days of events. */
  lemma StartsMarkRunStarts(ev: seq<int>, i: int)
    requires IsBinary(ev) && 0 <= i < |ev|
    ensures EventStarts(ev).value[i] == 0 || EventStarts(ev).value[i] == 1
    ensures EventStarts(ev).value[i] == 1 <==> IsRunStart(ev, i)
  {
    if i > 0 {
      assert ev[i] == 0 || ev[i] == 1;
      assert ev[i - 1] == 0 || ev[i - 1] == 1;
    }
  }

  function Reverse(s: seq<int>): (r: seq<int>)
    ensures |r| == |s| && forall i :: 0 <= i < |s| ==> r[i] == s[|s| - 1 - i]
  {
    seq(|s|, i requires 0 <= i < |s| => s[|s| - 1 - i])
  }

  /** Starts are ends read backwards in time: for any integer series, flagging the
      starts equals reversing, flagging the ends and reversing back. */
  lemma StartsAreReversedEnds(ev: seq<int>)
    requires |ev| > 0
    ensures EventStarts(ev).value == Reverse(EventEnds(Reverse(ev)).value)
  {
    var n := |ev|;
    var a := EventStarts(ev).value;
    var b := Reverse(EventEnds(Reverse(ev)).value);
    forall i | 0 <= i < n
      ensures a[i] == b[i]
    {
      var j := n - 1 - i;
      if j < n - 1 {
        assert Reverse(ev)[j + 1] - Reverse(ev)[j] == ev[i - 1] - ev[i];
      }
    }
  }

  function Sum(s: seq<int>): int {
    if |s| == 0 then 0 else Sum(s[..|s| - 1]) + s[|s| - 1]
  }

  /** Number of days whose value is one more than the day before. */
  function UpSteps(ev: seq<int>): nat {
    if |ev| < 2 then 0
    else UpSteps(ev[..|ev| - 1]) + (if ev[|ev| - 1] - ev[|ev| - 2] == 1 then 1 else 0)
  }

  /** Number of days whose value is one less than the day before. */
  function DownSteps(ev: seq<int>): nat {
    if |ev| < 2 then 0
    else DownSteps(ev[..|ev| - 1]) + (if ev[|ev| - 1] - ev[|ev| - 2] == -1 then 1 else 0)
  }

  /** The start flags add up to the first value plus the up-steps. */
  lemma {:induction false} StartsSum(ev: seq<int>)
    requires |ev| > 0
    ensures Sum(EventStarts(ev).value) == ev[0] + UpSteps(ev)
  {
    var n := |ev|;
    if n > 1 {
      var s := EventStarts(ev).value;
      assert s[..n - 1] == EventStarts(ev[..n - 1]).value;
      StartsSum(ev[..n - 1]);
    }
  }

  /** The end flags add up to the down-steps plus the last value. */
  lemma {:induction false} EndsSum(ev: seq<int>)
    requires |ev| > 0
    ensures Sum(EventEnds(ev).value) == DownSteps(ev) + ev[|ev| - 1]
  {
    var n := |ev|;
    if n > 1 {
      var e := EventEnds(ev).value;
      var f := EventEnds(ev[..n - 1]).value;
      EndsSum(ev[..n - 1]);
      assert e[..n - 2] == f[..n - 2];
      assert f == f[..n - 2] + [ev[n - 2]];
      assert e[..n - 1] == e[..n - 2] + [e[n - 2]];
      SumAppend(f[..n - 2], ev[n - 2]);
      SumAppend(e[..n - 2], e[n - 2]);
    }
  }

  lemma SumAppend(s: seq<int>, x: int)
    ensures Sum(s + [x]) == Sum(s) + x
  {
    assert (s + [x])[..|s|] == s;
  }

  /** On a 0/1 series the up-steps and down-steps differ by the change between the
      first and the last day. */
  lemma {:induction false} StepsTelescope(ev: seq<int>)
    requires |ev| > 0 && IsBinary(ev)
    ensures UpSteps(ev) - DownSteps(ev) == ev[|ev| - 1] - ev[0]
  {
    var n := |ev|;
    if n > 1 {
      assert IsBinary(ev[..n - 1]);
      StepsTelescope(ev[..n - 1]);
      assert ev[n - 1] == 0 || ev[n - 1] == 1;
      assert ev[n - 2] == 0 || ev[n - 2] == 1;
    }
  }

  /** Every event that starts also ends: a 0/1 series carries as many start flags as
      end flags. */
  lemma StartsBalanceEnds(ev: seq<int>)
    requires |ev| > 0 && IsBinary(ev)
    ensures Sum(EventStarts(ev).value) == Sum(EventEnds(ev).value)
  {
    StartsSum(ev);
    EndsSum(ev);
    StepsTelescope(ev);
  }

  /** The docstring example of `get_ev_end`. */
  lemma EndsExample()
    ensures EventEnds([0, 0, 1, 1, 1, 0, 0, 1]) == Some([0, 0, 0, 0, 1, 0, 0, 1])
  {
    var ev := [0, 0, 1, 1, 1, 0, 0, 1];
    var want := [0, 0, 0, 0, 1, 0, 0, 1];
    var e := EventEnds(ev).value;
    forall i | 0 <= i < 8
      ensures e[i] == want[i]
    {
    }
    assert e == want;
  }

  /** The docstring example of `get_ev_start`. */
  lemma StartsExample()
    ensures EventStarts([1, 0, 1, 1, 1, 0, 0, 1]) == Some([1, 0, 1, 0, 0, 0, 0, 1])
  {
    var ev := [1, 0, 1, 1, 1, 0, 0, 1];
    var want := [1, 0, 1, 0, 0, 0, 0, 1];
    var s := EventStarts(ev).value;
    forall i | 0 <= i < 8
      ensures s[i] == want[i]
    {
    }
    assert s == want;
  }
}
