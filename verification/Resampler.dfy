/**
 The browser's resampler (`frontend/public/pcm-processor.js`, and the fallback in
 `frontend/src/hooks/useMicrophone.ts`): averages windows of the input down to 16 kHz
 and scales them to 16-bit samples. `ratio` is the sample rate over 16,000; ratios and
 sample values are exact.
 */
module Resampler {
  import opened Prelude

  function OutputLength(n: nat, ratio: real): (length: nat)
    requires ratio > 0.0
  {
    NotNegative(n as real, ratio);
    (n as real / ratio).Floor
  }

  function From(ratio: real, index: nat): (from: nat)
    requires ratio > 0.0
  {
    (index as real * ratio).Floor
  }

  function To(n: nat, ratio: real, index: nat): int
    requires ratio > 0.0
  {
    Min(n, Max(From(ratio, index) + 1, From(ratio, index + 1)))
  }

  lemma NotNegative(a: real, b: real)
    requires a >= 0.0 && b > 0.0
    ensures a / b >= 0.0
  {
  }

  lemma Product(a: real, b: real, c: real)
    requires a <= b && c > 0.0
    ensures a * c <= b * c
  {
  }

  // Every window ends inside the input: (index + 1) * ratio <= n.
  lemma WindowFits(n: nat, ratio: real, index: nat)
    requires ratio > 0.0 && index < OutputLength(n, ratio)
    ensures (index + 1) as real * ratio <= n as real
    ensures (index + 1) as real * ratio == index as real * ratio + ratio
  {
    Product((index + 1) as real, n as real / ratio, ratio);
    assert n as real / ratio * ratio == n as real;
  }

  /** For every positive ratio, no window is empty or reaches outside the input. */
  lemma WindowInBounds(n: nat, ratio: real, index: nat)
    requires ratio > 0.0 && index < OutputLength(n, ratio)
    ensures 0 <= From(ratio, index) < To(n, ratio, index) <= n
    ensures From(ratio, index + 1) <= n
  {
    WindowFits(n, ratio, index);
  }

  /** Down-sampling windows tile the input: each starts where the previous one ends, the first at 0. */
  lemma WindowsTile(n: nat, ratio: real, index: nat)
    requires ratio >= 1.0 && index < OutputLength(n, ratio)
    ensures From(ratio, 0) == 0
    ensures To(n, ratio, index) == From(ratio, index + 1)
  {
    WindowFits(n, ratio, index);
    assert index as real * ratio + 1.0 <= (index + 1) as real * ratio;
  }

  lemma WholeMultiple(quotient: real, ratio: real, n: real)
    requires ratio > 0.0 && quotient * ratio == n
    ensures n - ratio < quotient.Floor as real * ratio <= n
  {
    var left := quotient - quotient.Floor as real;
    assert 0.0 <= left * ratio && (1.0 - left) * ratio > 0.0;
    assert left * ratio == n - quotient.Floor as real * ratio;
    assert (1.0 - left) * ratio == ratio - left * ratio;
  }

  /** Down-sampling leaves fewer than ratio + 1 input samples unread at the end. */
  lemma UnreadTailIsShort(n: nat, ratio: real)
    requires ratio >= 1.0
    ensures var end := From(ratio, OutputLength(n, ratio));
            end <= n && (n - end) as real < ratio + 1.0
  {
    WholeMultiple(n as real / ratio, ratio, n as real);
    var end := From(ratio, OutputLength(n, ratio));
    assert (n - end) as real == n as real - end as real;
  }

  // ---- samples ----

  function Sum(input: seq<real>, from: nat, to: nat): real
    requires from <= to <= |input|
  {
    if from == to then 0.0 else Sum(input, from, to - 1) + input[to - 1]
  }

  function Clamp(x: real): real {
    if x < -1.0 then -1.0 else if x > 1.0 then 1.0 else x
  }

  // Storing into an Int16Array truncates towards zero.
  function Truncate(x: real): int {
    if x >= 0.0 then x.Floor else -((-x).Floor)
  }

  function Quantize(average: real): int {
    var sample := Clamp(average);
    Truncate(if sample < 0.0 then sample * 32768.0 else sample * 32767.0)
  }

  function Average(input: seq<real>, from: nat, to: nat): real
    requires from < to <= |input|
  {
    Sum(input, from, to) / (to - from) as real
  }

  function Sample(input: seq<real>, ratio: real, index: nat): int
    requires ratio > 0.0 && index < OutputLength(|input|, ratio)
  {
    WindowInBounds(|input|, ratio, index);
    Quantize(Average(input, From(ratio, index), To(|input|, ratio, index)))
  }

  /** `process`: one output sample per window, each the quantised average of its window. */
  method Process(input: array<real>, ratio: real) returns (pcm: array<int>)
    requires ratio > 0.0
    ensures fresh(pcm) && pcm.Length == OutputLength(input.Length, ratio)
    ensures forall i | 0 <= i < pcm.Length :: pcm[i] == Sample(input[..], ratio, i)
    ensures forall i | 0 <= i < pcm.Length :: -32768 <= pcm[i] <= 32767
  {
    pcm := new int[OutputLength(input.Length, ratio)];
    for index := 0 to pcm.Length
      invariant forall i | 0 <= i < index :: pcm[i] == Sample(input[..], ratio, i)
    {
      WindowInBounds(input.Length, ratio, index);
      var from, to := From(ratio, index), To(input.Length, ratio, index);
      var sum := 0.0;
      for i := from to to
        invariant sum == Sum(input[..], from, i)
      {
        sum := sum + input[i];
      }
      var sample := Clamp(sum / (to - from) as real);
      pcm[index] := Truncate(if sample < 0.0 then sample * 32768.0 else sample * 32767.0);
    }
    forall i | 0 <= i < pcm.Length ensures -32768 <= pcm[i] <= 32767 {
      WindowInBounds(input.Length, ratio, i);
      QuantizeInRange(Average(input[..], From(ratio, i), To(input.Length, ratio, i)));
    }
  }

  /** Every output fits in 16 bits: storing it never wraps. */
  lemma QuantizeInRange(average: real)
    ensures -32768 <= Quantize(average) <= 32767
  {
  }

  // The value of a sample of full scale on the side of x.
  function Scale(x: real): real {
    if x < 0.0 then 32768.0 else 32767.0
  }

  /**
   Quantising maps -1, 0 and 1 to the ends and the middle of the 16-bit range, keeps order, and is off by
   less than one step, towards zero, for every average in range; all others go to the nearer end.
   */
  lemma QuantizeIsTight(x: real, y: real)
    ensures Quantize(-1.0) == -32768 && Quantize(0.0) == 0 && Quantize(1.0) == 32767
    ensures x <= y ==> Quantize(x) <= Quantize(y)
    ensures x <= -1.0 ==> Quantize(x) == -32768
    ensures x >= 1.0 ==> Quantize(x) == 32767
    ensures 0.0 <= x <= 1.0 ==> Quantize(x) as real <= x * Scale(x) < Quantize(x) as real + 1.0
    ensures -1.0 <= x < 0.0 ==> Quantize(x) as real - 1.0 < x * Scale(x) <= Quantize(x) as real
  {
  }

  lemma {:induction false} SumBounds(input: seq<real>, from: nat, to: nat, low: real, high: real)
    requires from <= to <= |input| && forall i | from <= i < to :: low <= input[i] <= high
    ensures low * (to - from) as real <= Sum(input, from, to) <= high * (to - from) as real
  {
    if from < to {
      SumBounds(input, from, to - 1, low, high);
      var n := (to - 1 - from) as real;
      assert (to - from) as real == n + 1.0;
      assert low * (n + 1.0) == low * n + low && high * (n + 1.0) == high * n + high;
    }
  }

  /** A window's average lies between its extremes, so input in [-1, 1] is never clipped. */
  lemma NoClipping(input: seq<real>, ratio: real, index: nat)
    requires ratio > 0.0 && index < OutputLength(|input|, ratio)
    requires forall i | 0 <= i < |input| :: -1.0 <= input[i] <= 1.0
    ensures From(ratio, index) < To(|input|, ratio, index) <= |input|
    ensures var average := Average(input, From(ratio, index), To(|input|, ratio, index));
            Clamp(average) == average
  {
    WindowInBounds(|input|, ratio, index);
    var from, to := From(ratio, index), To(|input|, ratio, index);
    SumBounds(input, from, to, -1.0, 1.0);
    var n := (to - from) as real;
    DivideBounds(Sum(input, from, to), n);
  }

  lemma DivideBounds(sum: real, n: real)
    requires n > 0.0 && -n <= sum <= n
    ensures -1.0 <= sum / n <= 1.0
  {
    RealProduct(sum / n, n);
    assert sum / n * n == sum;
  }

  lemma RealProduct(q: real, n: real)
    requires n > 0.0
    ensures q > 1.0 ==> q * n > n
    ensures q < -1.0 ==> q * n < -n
  {
    if q > 1.0 {
      assert (q - 1.0) * n > 0.0;
    } else if q < -1.0 {
      assert (-1.0 - q) * n > 0.0;
    }
  }
}
