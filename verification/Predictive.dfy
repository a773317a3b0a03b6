/** Predictors over a sliding window of samples (src/constellation/autoscale/predictive.c). */
module Predictive {
  import opened LeastSquares

  datatype Sample = Sample(value: real, timestamp: int)

  /** The last `capacity` samples. */
  function Slide(samples: seq<Sample>, capacity: nat): (r: seq<Sample>)
    ensures |r| <= capacity
  {
    if |samples| > capacity then samples[|samples| - capacity..] else samples
  }

  /** The window after adding samples one at a time. */
  function AddAll(window: seq<Sample>, samples: seq<Sample>, capacity: nat): seq<Sample>
    decreases |samples|
  {
    if samples == [] then window
    else AddAll(Slide(window + [samples[0]], capacity), samples[1..], capacity)
  }

  /** However many samples arrive, the window is the most recent ones in order. */
  lemma {:induction false} WindowIsMostRecent(window: seq<Sample>, samples: seq<Sample>, capacity: nat)
    requires |window| <= capacity
    ensures AddAll(window, samples, capacity) == Slide(window + samples, capacity)
    decreases |samples|
  {
    if samples == [] {
      assert window + samples == window;
    } else {
      var first := window + [samples[0]];
      assert window + samples == first + samples[1..];
      WindowIsMostRecent(Slide(first, capacity), samples[1..], capacity);
      SlideTwice(first, samples[1..], capacity);
    }
  }

  lemma {:induction false} DropTwice(s: seq<Sample>, i: nat, j: nat)
    requires i + j <= |s|
    ensures s[i..][j..] == s[i + j..]
  {
  }

  lemma {:induction false} DropInFront(s: seq<Sample>, t: seq<Sample>, i: nat)
    requires i <= |s|
    ensures s[i..] + t == (s + t)[i..]
  {
  }

  lemma {:induction false} SlideLong(samples: seq<Sample>, capacity: nat)
    requires |samples| >= capacity
    ensures Slide(samples, capacity) == samples[|samples| - capacity..]
  {
  }

  lemma {:induction false} SlideShort(samples: seq<Sample>, capacity: nat)
    requires |samples| <= capacity
    ensures Slide(samples, capacity) == samples
  {
  }

  /** Cutting down before more samples arrive makes no difference. */
  lemma {:induction false} SlideTwice(samples: seq<Sample>, more: seq<Sample>, capacity: nat)
    ensures Slide(Slide(samples, capacity) + more, capacity) == Slide(samples + more, capacity)
  {
    hide Slide;
    var all := samples + more;
    if |samples| > capacity {
      var cut := |samples| - capacity;
      SlideLong(samples, capacity);
      DropInFront(samples, more, cut);
      SlideLong(all[cut..], capacity);
      SlideLong(all, capacity);
      DropTwice(all, cut, |more|);
    } else {
      SlideShort(samples, capacity);
    }
  }

  function Values(window: seq<Sample>): (ys: seq<real>)
    ensures |ys| == |window| && forall i :: 0 <= i < |ys| ==> ys[i] == window[i].value
  {
    seq(|window|, i requires 0 <= i < |window| => window[i].value)
  }

  // ---------- Exponential smoothing ----------

  function Smoothed(ys: seq<real>, alpha: real): real
    requires ys != []
  {
    if |ys| == 1 then ys[0] else alpha * ys[|ys| - 1] + (1.0 - alpha) * Smoothed(ys[..|ys| - 1], alpha)
  }

  function SmoothingFactor(configured: real): (alpha: real)
    ensures 0.0 < alpha <= 1.0
  {
    if configured <= 0.0 || configured > 1.0 then 0.3 else configured
  }

  lemma {:induction false} MixStaysWithin(alpha: real, x: real, y: real, low: real, high: real)
    requires 0.0 < alpha <= 1.0 && low <= x <= high && low <= y <= high
    ensures low <= alpha * x + (1.0 - alpha) * y <= high
  {
    ProductNonNegative(alpha, x - low);
    ProductNonNegative(1.0 - alpha, y - low);
    assert alpha * x + (1.0 - alpha) * y == low + Product(alpha, x - low) + Product(1.0 - alpha, y - low);
    ProductNonNegative(alpha, high - x);
    ProductNonNegative(1.0 - alpha, high - y);
    assert alpha * x + (1.0 - alpha) * y == high - Product(alpha, high - x) - Product(1.0 - alpha, high - y);
  }

  /** A smoothed value lies between the bounds of the samples, whatever factor is configured. */
  lemma {:induction false} SmoothingStaysWithin(ys: seq<real>, configured: real, low: real, high: real)
    requires ys != [] && forall i :: 0 <= i < |ys| ==> low <= ys[i] <= high
    ensures low <= Smoothed(ys, SmoothingFactor(configured)) <= high
  {
    if |ys| > 1 {
      var front := ys[..|ys| - 1];
      var alpha := SmoothingFactor(configured);
      SmoothingStaysWithin(front, configured, low, high);
      MixStaysWithin(alpha, ys[|ys| - 1], Smoothed(front, alpha), low, high);
    }
  }

  function Power(x: real, n: nat): real {
    if n == 0 then 1.0 else x * Power(x, n - 1)
  }

  /** Each sample with its weight when `newer` samples come after the last one: `alpha` times
      `1 - alpha` for each newer sample, and the oldest without the factor `alpha`. */
  function Weighted(ys: seq<real>, alpha: real, newer: nat): real {
    if ys == [] then 0.0
    else
      Weighted(ys[..|ys| - 1], alpha, newer + 1)
      + (if |ys| == 1 then 1.0 else alpha) * Power(1.0 - alpha, newer) * ys[|ys| - 1]
  }

  /** Smoothing weighs the samples by their age. */
  lemma {:induction false} SmoothingWeighs(ys: seq<real>, alpha: real)
    requires ys != []
    ensures Smoothed(ys, alpha) == Weighted(ys, alpha, 0)
  {
    WeighedFrom(ys, alpha, 0);
    assert Power(1.0 - alpha, 0) == 1.0;
  }

  lemma {:induction false} WeighedFrom(ys: seq<real>, alpha: real, newer: nat)
    requires ys != []
    ensures Weighted(ys, alpha, newer) == Power(1.0 - alpha, newer) * Smoothed(ys, alpha)
  {
    var front := ys[..|ys| - 1];
    if front == [] {
      assert Weighted(front, alpha, newer + 1) == 0.0;
    } else {
      WeighedFrom(front, alpha, newer + 1);
      Distributes(Power(1.0 - alpha, newer), alpha, ys[|ys| - 1], Smoothed(front, alpha));
    }
  }

  lemma {:induction false} Distributes(p: real, alpha: real, y: real, s: real)
    ensures p * (alpha * y + (1.0 - alpha) * s) == ((1.0 - alpha) * p) * s + alpha * p * y
  {
  }

  /** A factor that is not above 0 and up to 1 counts as 0.3. */
  lemma {:induction false} DefaultFactor(configured: real)
    ensures SmoothingFactor(configured) == if 0.0 < configured <= 1.0 then configured else 0.3
  {
  }

  // ---------- The predictor ----------

  class Predictor {
    const data: array<Sample>
    const smoothingFactor: real
    var count: nat
    var mean: real
    var slope: real
    var intercept: real

    ghost predicate Valid()
      reads this
    {
      count <= data.Length && data.Length > 0
    }

    ghost function Window(): seq<Sample>
      requires Valid()
      reads this, data
    {
      data[..count]
    }

    constructor (capacity: nat, smoothingFactor: real)
      requires capacity > 0
      ensures Valid() && fresh(data) && data.Length == capacity && Window() == []
      ensures this.smoothingFactor == smoothingFactor && mean == 0.0
    {
      data := new Sample[capacity](_ => Sample(0.0, 0));
      this.smoothingFactor := smoothingFactor;
      count, mean, slope, intercept := 0, 0.0, 0.0, 0.0;
    }

    /** A full buffer is shifted down by one place first. */
    method AddTrainingSample(value: real, timestamp: int)
      requires Valid()
      modifies this`count, data
      ensures Valid() && Window() == Slide(old(Window()) + [Sample(value, timestamp)], data.Length)
    {
      ghost var was := Window();
      var sample := Sample(value, timestamp);
      if count < data.Length {
        data[count] := sample;
        count := count + 1;
        assert Window() == was + [sample];
      } else {
        var i := 0;
        while i + 1 < data.Length
          invariant 0 <= i <= data.Length - 1 && count == data.Length
          invariant forall j :: 0 <= j < i ==> data[j] == was[j + 1]
          invariant forall j :: i <= j < data.Length ==> data[j] == was[j]
        {
          data[i] := data[i + 1];
          i := i + 1;
        }
        data[data.Length - 1] := sample;
        assert (was + [sample])[1..] == Window();
      }
    }

    /** Fits the window and extends the line to `secondsAhead` past its end. */
    method PredictLinearRegression(secondsAhead: int) returns (p: real)
      requires Valid()
      modifies this`slope, this`intercept
      ensures var ys := Values(Window());
        if count < 2 then p == mean && slope == old(slope) && intercept == old(intercept)
        else
          && Denominator(count) > 0.0
          && slope == Slope(ys) && intercept == Intercept(ys)
          && p == LineAt(slope, intercept, count as real + secondsAhead as real / 60.0)
    {
      if count < 2 { return mean; }
      var n := count;
      var sumX, sumXX, sumY, sumXY := Sums();
      hide SumX, SumXX, SumY, SumXY, Numerator, Determinant, Product, LineAt;
      DenominatorPositive(n);
      slope := Numerator(n as real, sumX, sumY, sumXY) / Determinant(n as real, sumX, sumXX);
      intercept := (sumY - Product(slope, sumX)) / n as real;
      p := LineAt(slope, intercept, n as real + secondsAhead as real / 60.0);
    }

    method Sums() returns (sumX: real, sumXX: real, sumY: real, sumXY: real)
      requires Valid()
      ensures sumX == SumX(count) && sumXX == SumXX(count)
      ensures sumY == SumY(Values(Window())) && sumXY == SumXY(Values(Window()))
    {
      hide Product, Square;
      ghost var ys := Values(Window());
      sumX, sumXX, sumY, sumXY := 0.0, 0.0, 0.0, 0.0;
      for i := 0 to count
        invariant sumX == SumX(i) && sumXX == SumXX(i)
        invariant sumY == SumY(ys[..i]) && sumXY == SumXY(ys[..i])
      {
        var x := i as real;
        var y := data[i].value;
        assert ys[..i + 1][..i] == ys[..i] && ys[i] == y;
        sumX := sumX + x;
        sumY := sumY + y;
        sumXY := sumXY + Product(x, y);
        sumXX := sumXX + Square(x);
      }
      assert ys[..count] == ys;
    }

    method PredictExponentialSmoothing() returns (p: real)
      requires Valid()
      ensures p == if count < 1 then mean else Smoothed(Values(Window()), SmoothingFactor(smoothingFactor))
    {
      if count < 1 { return mean; }
      ghost var ys := Values(Window());
      var alpha := SmoothingFactor(smoothingFactor);
      p := data[0].value;
      var i := 1;
      while i < count
        invariant 1 <= i <= count && p == Smoothed(ys[..i], alpha)
      {
        assert ys[..i + 1][..i] == ys[..i] && ys[i] == data[i].value;
        p := alpha * data[i].value + (1.0 - alpha) * p;
        i := i + 1;
      }
      assert ys[..count] == ys;
    }
  }
}
