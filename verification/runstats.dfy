/** Per-backend counters and the running means of `update_run_stats`, over
    exact reals (the source uses Python floats). */
module RunStats {
  import opened Wrappers

  datatype Stats = Stats(
    bbCnt: nat,
    avgByteCnt: Option<real>,
    avgLiftTime: Option<real>,
    callImmCnt: nat,
    callRegCnt: nat,
    retCnt: nat)

  /** The values `SwitchBoard.__init__` starts from. */
  function NewStats(): Stats {
    Stats(0, None, None, 0, 0, 0)
  }

  /** Python truthiness of a running mean: `None` and zero are false. */
  predicate Truthy(avg: Option<real>) {
    avg.Some? && avg.value != 0.0
  }

  /** One running-mean update with `n` the already-incremented sample count:
      the new mean, and whether the reset branch's `assert bb_cnt == 1` holds. */
  function MeanStep(avg: Option<real>, x: real, n: nat): (r: (Option<real>, bool))
    requires n >= 1
    ensures r.0.Some?
    ensures Truthy(avg) ==> r.1 && r.0.value * (n as real) == avg.value * ((n - 1) as real) + x
    ensures !Truthy(avg) ==> r.0 == Some(x) && (r.1 <==> n == 1)
  {
    if Truthy(avg) then
      var m := avg.value + (x - avg.value) / (n as real);
      assert m * (n as real) == avg.value * (n as real) + (x - avg.value);
      (Some(m), true)
    else
      (Some(x), n == 1)
  }

  /** `update_run_stats`: counts one more lifted block and folds its lift time
      and byte count into the means. The second component is false when a
      reset branch's assertion fails; the lift-time assertion comes first and,
      when it fails, the byte mean is left as it was. */
  function UpdateRunStats(s: Stats, liftTime: real, byteCnt: nat): (r: (Stats, bool))
    ensures r.0.bbCnt == s.bbCnt + 1
    ensures r.0.callImmCnt == s.callImmCnt && r.0.callRegCnt == s.callRegCnt && r.0.retCnt == s.retCnt
    ensures r.0.avgLiftTime == MeanStep(s.avgLiftTime, liftTime, s.bbCnt + 1).0
    ensures MeanStep(s.avgLiftTime, liftTime, s.bbCnt + 1).1 ==>
      r.0.avgByteCnt == MeanStep(s.avgByteCnt, byteCnt as real, s.bbCnt + 1).0
    ensures !MeanStep(s.avgLiftTime, liftTime, s.bbCnt + 1).1 ==> r.0.avgByteCnt == s.avgByteCnt
    ensures r.1 <==> (MeanStep(s.avgLiftTime, liftTime, s.bbCnt + 1).1
                      && MeanStep(s.avgByteCnt, byteCnt as real, s.bbCnt + 1).1)
  {
    var n := s.bbCnt + 1;
    var (t, okTime) := MeanStep(s.avgLiftTime, liftTime, n);
    if !okTime then
      (s.(bbCnt := n, avgLiftTime := t), false)
    else
      var (b, okBytes) := MeanStep(s.avgByteCnt, byteCnt as real, n);
      (s.(bbCnt := n, avgLiftTime := t, avgByteCnt := b), okBytes)
  }

  /** The first counted lift on fresh statistics always passes both reset
      assertions and takes its own values as the means. */
  lemma FirstUpdateSucceeds(liftTime: real, byteCnt: nat)
    ensures UpdateRunStats(NewStats(), liftTime, byteCnt).1
    ensures UpdateRunStats(NewStats(), liftTime, byteCnt).0 ==
      Stats(1, Some(byteCnt as real), Some(liftTime), 0, 0, 0)
  {
  }

  /** A sequence of counted lifts: each sample is (lift time, byte count). */
  function UpdateAll(s: Stats, samples: seq<(real, nat)>): (Stats, bool)
    decreases |samples|
  {
    if |samples| == 0 then (s, true)
    else
      var (s1, ok1) := UpdateAll(s, samples[..|samples| - 1]);
      var last := samples[|samples| - 1];
      var (s2, ok2) := UpdateRunStats(s1, last.0, last.1);
      (s2, ok1 && ok2)
  }

  function SumTimes(samples: seq<(real, nat)>): real {
    if |samples| == 0 then 0.0 else SumTimes(samples[..|samples| - 1]) + samples[|samples| - 1].0
  }

  function SumBytes(samples: seq<(real, nat)>): nat {
    if |samples| == 0 then 0 else SumBytes(samples[..|samples| - 1]) + samples[|samples| - 1].1
  }

  /** Each mean times the count is the corresponding sum. */
  predicate MeansMatch(s: Stats, n: nat, sumTimes: real, sumBytes: real) {
    && s.bbCnt == n
    && (n == 0 ==> s.avgLiftTime.None? && s.avgByteCnt.None? && sumTimes == 0.0 && sumBytes == 0.0)
    && (n > 0 ==>
          && s.avgLiftTime.Some? && s.avgLiftTime.value * (n as real) == sumTimes
          && s.avgByteCnt.Some? && s.avgByteCnt.value * (n as real) == sumBytes)
  }

  /** With every lift time and byte count positive, no assertion fires and the
      two running means are exactly the means of the counted samples. */
  lemma MeansAreExact(samples: seq<(real, nat)>)
    requires forall i :: 0 <= i < |samples| ==> samples[i].0 > 0.0 && samples[i].1 > 0
    ensures UpdateAll(NewStats(), samples).1
    ensures UpdateAll(NewStats(), samples).0.bbCnt == |samples|
    ensures |samples| > 0 ==>
      && UpdateAll(NewStats(), samples).0.avgLiftTime == Some(SumTimes(samples) / (|samples| as real))
      && UpdateAll(NewStats(), samples).0.avgByteCnt == Some((SumBytes(samples) as real) / (|samples| as real))
  {
    MeanProducts(samples);
    MeansFromMatch(UpdateAll(NewStats(), samples).0, |samples|, SumTimes(samples), SumBytes(samples) as real);
  }

  /** Matching products give the exact means. */
  lemma MeansFromMatch(s: Stats, n: nat, sumTimes: real, sumBytes: real)
    requires MeansMatch(s, n, sumTimes, sumBytes)
    ensures s.bbCnt == n
    ensures n > 0 ==> s.avgLiftTime == Some(sumTimes / (n as real)) && s.avgByteCnt == Some(sumBytes / (n as real))
  {
    if n > 0 {
      MeanFromProduct(s.avgLiftTime, sumTimes, n);
      MeanFromProduct(s.avgByteCnt, sumBytes, n);
    }
  }

  /** The invariant behind MeansAreExact, free of division. */
  lemma {:induction false} MeanProducts(samples: seq<(real, nat)>)
    requires forall i :: 0 <= i < |samples| ==> samples[i].0 > 0.0 && samples[i].1 > 0
    ensures UpdateAll(NewStats(), samples).1
    ensures MeansMatch(UpdateAll(NewStats(), samples).0, |samples|, SumTimes(samples), SumBytes(samples) as real)
    decreases |samples|
  {
    if |samples| > 0 {
      var n := |samples|;
      var init := samples[..n - 1];
      var last := samples[n - 1];
      forall i | 0 <= i < |init| ensures init[i].0 > 0.0 && init[i].1 > 0 {
        assert init[i] == samples[i];
      }
      MeanProducts(init);
      if n > 1 {
        SumsPositive(init);
      }
      MeanStepProducts(UpdateAll(NewStats(), init).0, n - 1, SumTimes(init), SumBytes(init) as real, last.0, last.1);
      assert SumTimes(samples) == SumTimes(init) + last.0;
      assert SumBytes(samples) == SumBytes(init) + last.1;
    }
  }

  lemma MeanStepProducts(s: Stats, n: nat, sumTimes: real, sumBytes: real, t: real, b: nat)
    requires MeansMatch(s, n, sumTimes, sumBytes)
    requires n > 0 ==> sumTimes > 0.0 && sumBytes > 0.0
    requires t > 0.0 && b > 0
    ensures UpdateRunStats(s, t, b).1
    ensures MeansMatch(UpdateRunStats(s, t, b).0, n + 1, sumTimes + t, sumBytes + b as real)
  {
    if n > 0 {
      PositiveMean(s.avgLiftTime.value, sumTimes, n);
      PositiveMean(s.avgByteCnt.value, sumBytes, n);
    }
    var mt := MeanStep(s.avgLiftTime, t, n + 1);
    var mb := MeanStep(s.avgByteCnt, b as real, n + 1);
    assert mt.1 && mt.0.value * ((n + 1) as real) == sumTimes + t;
    assert mb.1 && mb.0.value * ((n + 1) as real) == sumBytes + b as real;
  }

  lemma {:induction false} SumsPositive(samples: seq<(real, nat)>)
    requires |samples| > 0
    requires forall i :: 0 <= i < |samples| ==> samples[i].0 > 0.0 && samples[i].1 > 0
    ensures SumTimes(samples) > 0.0 && SumBytes(samples) > 0
    decreases |samples|
  {
    var init := samples[..|samples| - 1];
    if |init| > 0 {
      forall i | 0 <= i < |init| ensures init[i].0 > 0.0 && init[i].1 > 0 {
        assert init[i] == samples[i];
      }
      SumsPositive(init);
    }
  }

  lemma PositiveMean(m: real, sum: real, n: nat)
    requires n > 0 && m * (n as real) == sum && sum > 0.0
    ensures m != 0.0
  {
  }

  lemma MeanFromProduct(m: Option<real>, sum: real, n: nat)
    requires n > 0 && m.Some? && m.value * (n as real) == sum
    ensures m == Some(sum / (n as real))
  {
    var d := n as real;
    var x := m.value;
    assert d > 0.0;
    assert sum / d == x;
  }

  /** A running mean left at zero (a zero-length block or a zero lift time)
      sends the next update into the reset branch, whose assertion then fails. */
  lemma ZeroMeanBreaksNextUpdate(s: Stats, t: real, b: nat, t': real, b': nat)
    requires var s1 := UpdateRunStats(s, t, b).0;
      !Truthy(s1.avgLiftTime) || !Truthy(s1.avgByteCnt)
    ensures !UpdateRunStats(UpdateRunStats(s, t, b).0, t', b').1
  {
  }

  /** From a fresh board: a first block of zero bytes makes the second
      counted lift fail the byte mean's reset assertion. */
  lemma ZeroLengthFirstBlock(t: real, t': real, b': nat)
    requires t > 0.0
    ensures UpdateRunStats(NewStats(), t, 0).1
    ensures !UpdateRunStats(UpdateRunStats(NewStats(), t, 0).0, t', b').1
  {
    ZeroMeanBreaksNextUpdate(NewStats(), t, 0, t', b');
  }
}
