/** Online mean and second moment of the benchmark results, by Welford's recurrence. */
module Statistics {

  datatype PhaseResult = PhaseResult(time: real, rate: real, period: real)

  datatype Result = Result(init: PhaseResult, run: PhaseResult)

  /** The six numbers of a result. */
  datatype Field = InitTime | InitRate | InitPeriod | RunTime | RunRate | RunPeriod

  function Get(r: Result, f: Field): real {
    match f
    case InitTime => r.init.time
    case InitRate => r.init.rate
    case InitPeriod => r.init.period
    case RunTime => r.run.time
    case RunRate => r.run.rate
    case RunPeriod => r.run.period
  }

  function Column(results: seq<Result>, f: Field): seq<real> {
    seq(|results|, i requires 0 <= i < |results| => Get(results[i], f))
  }

  function Sum(xs: seq<real>): real {
    if xs == [] then 0.0 else Sum(xs[..|xs| - 1]) + xs[|xs| - 1]
  }

  function Quotient(a: real, b: real): real
    requires b != 0.0
  {
    a / b
  }

  function Mean(xs: seq<real>): real
    requires xs != []
  {
    Quotient(Sum(xs), |xs| as real)
  }

  /** The sum of the squared deviations from `a`. */
  function Deviation(xs: seq<real>, a: real): real {
    if xs == [] then 0.0
    else Deviation(xs[..|xs| - 1], a) + Square(xs[|xs| - 1] - a)
  }

  function Square(d: real): (r: real)
    ensures r >= 0.0
  {
    d * d
  }

  lemma {:induction false} DeviationNotNegative(xs: seq<real>, a: real)
    ensures Deviation(xs, a) >= 0.0
  {
    hide Square;
    if xs != [] {
      DeviationNotNegative(xs[..|xs| - 1], a);
    }
  }

  function Moved(dev: real, s: real, n: real, a: real, e: real): real {
    dev - 2.0 * e * (s - n * a) + n * Square(e)
  }

  lemma MovedByOneMore(dev: real, s: real, n: real, a: real, e: real, x: real)
    ensures Moved(dev, s, n, a, e) + Square(x - (a + e)) == Moved(dev + Square(x - a), s + x, n + 1.0, a, e)
  {
  }

  /** Moving the reference point by `e` changes the deviation by this much. */
  lemma {:induction false} DeviationMoved(xs: seq<real>, a: real, e: real)
    ensures Deviation(xs, a + e) == Moved(Deviation(xs, a), Sum(xs), |xs| as real, a, e)
  {
    hide Moved, Square;
    if xs == [] {
      MovedNothing(a, e);
    } else {
      var n := |xs| - 1;
      DeviationMoved(xs[..n], a, e);
      MovedByOneMore(Deviation(xs[..n], a), Sum(xs[..n]), n as real, a, e, xs[n]);
      assert |xs| as real == n as real + 1.0;
    }
  }

  lemma MovedNothing(a: real, e: real)
    ensures Moved(0.0, 0.0, 0.0, a, e) == 0.0
  {
  }

  /** The mean and the moment after one more sample. */
  function NextMean(average: real, x: real, count: nat): real
    requires count > 0
  {
    average + Quotient(x - average, count as real)
  }

  function NextMoment(moment2: real, average: real, average': real, x: real): real {
    moment2 + (x - average) * (x - average')
  }

  /** One step of the recurrence, from the first samples `xs` to one more. */
  lemma {:induction false} WelfordStep(xs: seq<real>, x: real)
    requires xs != []
    ensures Mean(xs + [x]) == NextMean(Mean(xs), x, |xs| + 1)
    ensures Deviation(xs + [x], Mean(xs + [x])) ==
            NextMoment(Deviation(xs, Mean(xs)), Mean(xs), Mean(xs + [x]), x)
  {
    var n, s, mean := |xs| as real, Sum(xs), Mean(xs);
    var e := Quotient(x - mean, n + 1.0);
    OneMore(xs, x, mean + e);
    DeviationMoved(xs, mean, e);
    assert n == |xs| as real && n + 1.0 == (|xs| + 1) as real && |xs + [x]| == |xs| + 1;
    assert mean == Quotient(s, n);
    hide Sum, Deviation, Moved, Square, NextMoment, Quotient;
    WelfordArithmetic(n, s, x, Deviation(xs, mean));
  }

  lemma WelfordArithmetic(n: real, s: real, x: real, dev: real)
    requires n >= 1.0
    ensures var mean := Quotient(s, n);
            var e := Quotient(x - mean, n + 1.0);
            && Quotient(s + x, n + 1.0) == mean + e
            && Moved(dev, s, n, mean, e) + Square(x - (mean + e)) == NextMoment(dev, mean, mean + e, x)
  {
  }

  lemma OneMore(xs: seq<real>, x: real, a: real)
    ensures Sum(xs + [x]) == Sum(xs) + x
    ensures Deviation(xs + [x], a) == Deviation(xs, a) + Square(x - a)
  {
  }

  /** What one ACCUMULATE does to one field. */
  method Accumulate(x: real, average: real, moment2: real, count: nat) returns (average': real, moment2': real)
    requires count > 0
    ensures average' == NextMean(average, x, count)
    ensures moment2' == NextMoment(moment2, average, average', x)
  {
    var deltaPre := x - average;
    average' := average + deltaPre / count as real;
    var deltaPost := x - average';
    moment2' := moment2 + deltaPre * deltaPost;
    SameProduct(deltaPre, deltaPost, x - average, x - average');
  }

  lemma SameProduct(a: real, b: real, c: real, d: real)
    requires a == c && b == d
    ensures a * b == c * d
  {
  }

  ghost predicate IsMoment(xs: seq<real>, average: real, moment2: real) {
    xs != [] && average == Mean(xs) && moment2 == Deviation(xs, average)
  }

  /** Before the first sample the average is seeded with it, which makes the first step a no-op. */
  ghost predicate Before(xs: seq<real>, n: nat, average: real, moment2: real)
    requires n <= |xs|
  {
    if n == 0 then xs != [] && average == xs[0] && moment2 == 0.0
    else IsMoment(xs[..n], average, moment2)
  }

  lemma {:induction false} AccumulateStep(xs: seq<real>, n: nat, average: real, moment2: real,
                                          average': real, moment2': real)
    requires n < |xs| && Before(xs, n, average, moment2)
    requires average' == NextMean(average, xs[n], n + 1)
    requires moment2' == NextMoment(moment2, average, average', xs[n])
    ensures Before(xs, n + 1, average', moment2')
  {
    hide NextMean, NextMoment, Quotient, Square;
    if n == 0 {
      FirstSample(xs[0]);
      OneMore([], xs[0], xs[0]);
      assert xs[..1] == [] + [xs[0]];
    } else {
      assert xs[..n + 1] == xs[..n] + [xs[n]];
      WelfordStep(xs[..n], xs[n]);
    }
  }

  lemma FirstSample(x: real)
    ensures NextMean(x, x, 1) == x == Quotient(x, 1.0) && NextMoment(0.0, x, x, x) == 0.0 == Square(x - x)
  {
  }

  /** The six ACCUMULATEs of one run. */
  method AccumulateAll(run: Result, average: Result, moment2: Result, count: nat)
      returns (average': Result, moment2': Result)
    requires count > 0
    ensures forall f ::
              && Get(average', f) == NextMean(Get(average, f), Get(run, f), count)
              && Get(moment2', f) == NextMoment(Get(moment2, f), Get(average, f), Get(average', f), Get(run, f))
  {
    hide NextMean, NextMoment;
    var a0, m0 := Accumulate(run.init.time, average.init.time, moment2.init.time, count);
    var a1, m1 := Accumulate(run.init.rate, average.init.rate, moment2.init.rate, count);
    var a2, m2 := Accumulate(run.init.period, average.init.period, moment2.init.period, count);
    var a3, m3 := Accumulate(run.run.time, average.run.time, moment2.run.time, count);
    var a4, m4 := Accumulate(run.run.rate, average.run.rate, moment2.run.rate, count);
    var a5, m5 := Accumulate(run.run.period, average.run.period, moment2.run.period, count);
    average' := Result(PhaseResult(a0, a1, a2), PhaseResult(a3, a4, a5));
    moment2' := Result(PhaseResult(m0, m1, m2), PhaseResult(m3, m4, m5));
  }

  /**
   With at least two runs, each average is the mean of its column, and each second moment the
   sum of the squared deviations from that mean.
   */
  method Log(results: seq<Result>) returns (logged: bool, average: Result, moment2: Result)
    ensures logged <==> |results| >= 2
    ensures logged ==> forall f ::
              && IsMoment(Column(results, f), Get(average, f), Get(moment2, f))
              && Get(moment2, f) >= 0.0
  {
    hide Get, IsMoment;
    var zero := Result(PhaseResult(0.0, 0.0, 0.0), PhaseResult(0.0, 0.0, 0.0));
    if |results| < 2 {
      return false, zero, zero;
    }
    logged := true;
    average := results[0];
    moment2 := zero;
    ZeroIsZero();
    for n := 0 to |results|
      invariant forall f :: Before(Column(results, f), n, Get(average, f), Get(moment2, f))
    {
      hide Before;
      ghost var average0, moment0 := average, moment2;
      average, moment2 := AccumulateAll(results[n], average, moment2, n + 1);
      forall f ensures Before(Column(results, f), n + 1, Get(average, f), Get(moment2, f)) {
        AccumulateStep(Column(results, f), n, Get(average0, f), Get(moment0, f), Get(average, f), Get(moment2, f));
      }
    }
    forall f ensures Get(moment2, f) >= 0.0 && IsMoment(Column(results, f), Get(average, f), Get(moment2, f)) {
      assert Column(results, f)[..|results|] == Column(results, f);
      MomentNotNegative(Column(results, f), Get(average, f), Get(moment2, f));
    }
  }

  lemma ZeroIsZero()
    ensures forall f :: Get(Result(PhaseResult(0.0, 0.0, 0.0), PhaseResult(0.0, 0.0, 0.0)), f) == 0.0
  {
  }

  lemma MomentNotNegative(xs: seq<real>, average: real, moment2: real)
    requires IsMoment(xs, average, moment2)
    ensures moment2 >= 0.0
  {
    DeviationNotNegative(xs, average);
  }
}
