/** The search of pps.py for the best input delay of each subrack: the middle of the longest run of delays
    at which the synchronisation of the subrack is stable. */
module PpsDelays {

  /** Python's slice of a list. */
  function Slice(s: seq<nat>, from: nat, to: nat): seq<nat>
    requires from <= to
  {
    if |s| <= from then [] else if |s| <= to then s[from..] else s[from..to]
  }

  function Sum(s: seq<nat>): nat { if s == [] then 0 else Sum(s[..|s| - 1]) + s[|s| - 1] }

  /** What counts as a good measurement of subrack k: no difference seen in the slice that is summed. */
  predicate Good(meas: seq<nat>, k: nat) { Sum(Slice(meas, 16 * k, 16 * k + 15)) == 0 }

  lemma {:induction false} SumZero(s: seq<nat>)
    ensures Sum(s) == 0 <==> forall i :: 0 <= i < |s| ==> s[i] == 0
  {
    if s != [] {
      SumZero(s[..|s| - 1]);
      assert forall i :: 0 <= i < |s| - 1 ==> s[..|s| - 1][i] == s[i];
    }
  }

  /** The slice leaves out the last of the sixteen antenna processors of a subrack: a measurement is good
      exactly if the first fifteen show no difference, and says nothing about the sixteenth. */
  lemma GoodIsFirstFifteen(meas: seq<nat>, k: nat, last: nat)
    requires |meas| >= 16 * (k + 1)
    ensures Good(meas, k) <==> forall i :: 16 * k <= i < 16 * k + 15 ==> meas[i] == 0
    ensures Good(meas[16 * k + 15 := last], k) == Good(meas, k)
  {
    var s := Slice(meas, 16 * k, 16 * k + 15);
    SumZero(s);
    assert forall i :: 16 * k <= i < 16 * k + 15 ==> meas[i] == s[i - 16 * k];
    assert forall i :: 0 <= i < 15 ==> s[i] == meas[16 * k..][i];
    assert Slice(meas[16 * k + 15 := last], 16 * k, 16 * k + 15) == s;
  }

  // ---------------------------------------------------------------- runs

  /** n good delays from delay i on. */
  predicate IsRun(good: seq<bool>, i: nat, n: nat) {
    i + n <= |good| && forall j :: i <= j < i + n ==> good[j]
  }

  /** The earliest of the longest runs. */
  ghost predicate EarliestLongest(good: seq<bool>, index: nat, max: nat) {
    && IsRun(good, index, max) && (max == 0 ==> index == 0)
    && forall i: nat, n: nat :: IsRun(good, i, n) && n > 0 ==> n < max || (n == max && index <= i)
  }

  lemma EarliestLongestUnique(good: seq<bool>, i: nat, m: nat, j: nat, n: nat)
    requires EarliestLongest(good, i, m) && EarliestLongest(good, j, n)
    ensures i == j && m == n
  {
  }

  /** The run that reaches up to the last delay. */
  ghost predicate LastRun(good: seq<bool>, index: nat, n: nat) {
    && n <= |good| && IsRun(good, |good| - n, n) && (n < |good| ==> !good[|good| - n - 1])
    && index == if n == 0 then 0 else |good| - n
  }

  lemma RunsAppend(good: seq<bool>, b: bool, i: nat, n: nat)
    requires n > 0
    ensures IsRun(good + [b], i, n) <==>
      IsRun(good, i, n) || (i + n == |good| + 1 && b && IsRun(good, i, n - 1))
  {
    var more := good + [b];
    assert forall j :: 0 <= j < |good| ==> more[j] == good[j];
    if IsRun(more, i, n) && i + n == |more| { assert more[i + n - 1] == b; }
  }

  class Tracker {
    var max: nat
    var maxl: nat
    var index: nat
    var indexl: nat

    /** The counters after the delays good. */
    ghost predicate Tracks(good: seq<bool>)
      reads this
    {
      LastRun(good, indexl, maxl) && EarliestLongest(good, index, max)
    }

    constructor ()
      ensures Tracks([])
    {
      max, maxl, index, indexl := 0, 0, 0, 0;
    }

    lemma Longest(good: seq<bool>)
      requires Tracks(good)
      ensures EarliestLongest(good, index, max)
    {
    }

    /** One delay more, cnt being its number. */
    method Step(isGood: bool, cnt: nat, ghost good: seq<bool>)
      requires Tracks(good) && cnt == |good|
      modifies this
      ensures Tracks(good + [isGood])
    {
      ghost var before, max0, index0 := maxl, max, index;
      if isGood {
        maxl := maxl + 1;
        if maxl == 1 {
          indexl := cnt;
        }
      } else {
        maxl := 0;
        indexl := 0;
      }
      if maxl > max {
        max := maxl;
        index := indexl;
      }
      LastRunGrows(good, isGood, before, maxl, indexl);
      LongestGrows(good, isGood, index0, max0, indexl, maxl, index, max);
    }
  }

  lemma LastRunGrows(good: seq<bool>, b: bool, before: nat, after: nat, index: nat)
    requires exists i :: LastRun(good, i, before)
    requires after == (if b then before + 1 else 0) && index == if b then |good| - before else 0
    ensures LastRun(good + [b], index, after)
  {
    var more := good + [b];
    assert forall j :: 0 <= j < |good| ==> more[j] == good[j];
  }

  lemma LongestGrows(good: seq<bool>, b: bool, index: nat, max: nat, lastIndex: nat, last: nat, index2: nat, max2: nat)
    requires EarliestLongest(good, index, max) && LastRun(good + [b], lastIndex, last)
    requires max2 == (if last > max then last else max) && index2 == if last > max then lastIndex else index
    ensures EarliestLongest(good + [b], index2, max2)
  {
    var more := good + [b];
    assert forall j :: 0 <= j < |good| ==> more[j] == good[j];
    forall i: nat, n: nat | IsRun(more, i, n) && n > 0 ensures n < max2 || (n == max2 && index2 <= i) {
      RunsAppend(good, b, i, n);
      if !IsRun(good, i, n) { NotLonger(more, lastIndex, last, i, n); }
    }
  }

  /** A run up to the end is no longer than the last run. */
  lemma NotLonger(good: seq<bool>, index: nat, last: nat, i: nat, n: nat)
    requires LastRun(good, index, last) && IsRun(good, i, n) && i + n == |good|
    ensures n <= last
  {
    assert last < |good| ==> !(i <= |good| - last - 1);
  }

  // ---------------------------------------------------------------- the test

  /** The results of one subrack over all delays. */
  function Results(measurements: seq<seq<nat>>, k: nat): (r: seq<bool>)
    ensures |r| == |measurements|
    ensures forall i :: 0 <= i < |r| ==> r[i] == Good(measurements[i], k)
  {
    seq(|measurements|, i requires 0 <= i < |measurements| => Good(measurements[i], k))
  }

  lemma ResultsAppend(done: seq<seq<nat>>, meas: seq<nat>, k: nat)
    ensures Results(done + [meas], k) == Results(done, k) + [Good(meas, k)]
  {
    hide Good;
  }

  lemma GoodSlices(meas: seq<nat>)
    ensures Good(meas, 0) == (Sum(Slice(meas, 0, 15)) == 0)
    ensures Good(meas, 1) == (Sum(Slice(meas, 16, 31)) == 0)
    ensures Good(meas, 2) == (Sum(Slice(meas, 32, 47)) == 0)
  {
  }

  class PpsTest {
    const subracks: seq<Tracker>
    var cnt: nat

    ghost predicate Valid(done: seq<seq<nat>>)
      reads this, subracks
    {
      && |subracks| == 3 && subracks[0] != subracks[1] && subracks[1] != subracks[2] && subracks[0] != subracks[2]
      && cnt == |done| && forall k :: 0 <= k < 3 ==> subracks[k].Tracks(Results(done, k))
    }

    constructor ()
      ensures Valid([]) && fresh(subracks[0]) && fresh(subracks[1]) && fresh(subracks[2])
    {
      var s0 := new Tracker();
      var s1 := new Tracker();
      var s2 := new Tracker();
      subracks, cnt := [s0, s1, s2], 0;
      new;
      assert forall k :: 0 <= k < 3 ==> Results([], k) == [];
    }

    /** PrintMeas, and on to the next delay. */
    method Measured(meas: seq<nat>, ghost done: seq<seq<nat>>)
      requires Valid(done)
      modifies this, subracks
      ensures Valid(done + [meas])
    {
      hide Tracker.Tracks, Results, Good;
      forall k | 0 <= k < 3 ensures Results(done + [meas], k) == Results(done, k) + [Good(meas, k)] {
        ResultsAppend(done, meas, k);
      }
      GoodSlices(meas);
      subracks[0].Step(Sum(Slice(meas, 0, 15)) == 0, cnt, Results(done, 0));
      subracks[1].Step(Sum(Slice(meas, 16, 31)) == 0, cnt, Results(done, 1));
      subracks[2].Step(Sum(Slice(meas, 32, 47)) == 0, cnt, Results(done, 2));
      cnt := cnt + 1;
    }
  }

  /** The delays written for the three subracks after all measurements. Each one lies in the earliest of
      the longest runs of good delays, if there is any good delay at all. */
  method FindDelays(measurements: seq<seq<nat>>) returns (delays: seq<nat>)
    ensures |delays| == 3
    ensures forall k :: 0 <= k < 3 ==> ChosenDelay(Results(measurements, k), delays[k])
  {
    hide Tracker.Tracks, Good, EarliestLongest, Results;
    var test := new PpsTest();
    for i := 0 to |measurements|
      invariant test.Valid(measurements[..i])
      invariant fresh(test) && forall k :: 0 <= k < |test.subracks| ==> fresh(test.subracks[k])
    {
      assert measurements[..i + 1] == measurements[..i] + [measurements[i]];
      test.Measured(measurements[i], measurements[..i]);
    }
    assert measurements[..|measurements|] == measurements;
    delays := [test.subracks[0].index + test.subracks[0].max / 2, test.subracks[1].index + test.subracks[1].max / 2,
               test.subracks[2].index + test.subracks[2].max / 2];
    forall k | 0 <= k < 3 ensures ChosenDelay(Results(measurements, k), delays[k]) {
      assert test.subracks[k].Tracks(Results(measurements, k));
      test.subracks[k].Longest(Results(measurements, k));
    }
  }

  /** The delay is half way the earliest longest run. */
  ghost predicate ChosenDelay(good: seq<bool>, delay: nat) {
    exists index: nat, max: nat :: EarliestLongest(good, index, max) && delay == index + max / 2
  }

  /** The delay chosen is a good one exactly if there is a good delay. */
  lemma ChosenIsGoodIff(good: seq<bool>, delay: nat)
    requires ChosenDelay(good, delay)
    ensures (delay < |good| && good[delay]) <==> exists i :: 0 <= i < |good| && good[i]
  {
    var index: nat, max: nat :| EarliestLongest(good, index, max) && delay == index + max / 2;
    if i :| 0 <= i < |good| && good[i] {
      assert IsRun(good, i, 1);
      assert index <= delay < index + max;
    }
  }

  /** As many good delays lie before the chosen one in its run as after it, or one more before. No run is longer,
      and none as long starts earlier. */
  lemma ChosenIsMiddle(good: seq<bool>, delay: nat) returns (before: nat, after: nat)
    requires ChosenDelay(good, delay) && delay < |good| && good[delay]
    ensures before == after || before == after + 1
    ensures before <= delay && IsRun(good, delay - before, before + 1 + after)
    ensures forall i: nat, n: nat :: IsRun(good, i, n) && n > 0 ==>
      n < before + 1 + after || (n == before + 1 + after && delay - before <= i)
  {
    var index: nat, max: nat :| EarliestLongest(good, index, max) && delay == index + max / 2;
    assert IsRun(good, delay, 1);
    before, after := max / 2, max - 1 - max / 2;
  }
}
