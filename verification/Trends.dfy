/** Linear-trend prediction over the samples of a window. */
module Trends {
  import opened SampleWindows

  datatype Risk = NoRisk | Elevated | High

  /** The sums a least-squares line is made from, over samples whose times count from `origin`. */
  datatype Sums = Sums(n: real, x: real, y: real, xx: real, xy: real) {
    function Denominator(): real { n * xx - x * x }
    function Numerator(): real { n * xy - x * y }
  }

  function Offset(s: Sample, origin: int): real {
    (s.time - origin) as real
  }

  function SumsOf(samples: seq<Sample>, origin: int): Sums {
    if samples == [] then Sums(0.0, 0.0, 0.0, 0.0, 0.0)
    else
      var past, last := SumsOf(samples[..|samples| - 1], origin), samples[|samples| - 1];
      Grown(past, Offset(last, origin), last.value)
  }

  const DEFAULT_HORIZON: int := 60_000_000_000

  function Exceeds(projected: real, limit: real): Risk {
    if projected > limit * 1.5 then High
    else if projected > limit then Elevated
    else NoRisk
  }

  /** The risk that a rising line with these sums crosses `limit` within the horizon. */
  function LineRisk(sums: Sums, duration: int, measured: real, limit: real): Risk {
    if sums.Denominator() == 0.0 then NoRisk
    else
      var slope := sums.Numerator() / sums.Denominator();
      if slope <= 0.0 then NoRisk
      else Exceeds(measured + slope * ((if duration > 0 then duration else DEFAULT_HORIZON) as real), limit)
  }

  function TrendRisk(samples: seq<Sample>, duration: int, measured: real, limit: real): Risk {
    if |samples| < 4 then NoRisk
    else LineRisk(SumsOf(samples, samples[0].time), duration, measured, limit)
  }

  lemma SumsExtend(samples: seq<Sample>, i: nat, origin: int, s: Sums, x: real, y: real)
    requires i < |samples| && s == SumsOf(samples[..i], origin)
    requires x == Offset(samples[i], origin) && y == samples[i].value
    ensures SumsOf(samples[..i + 1], origin) == Grown(s, x, y)
  {
    assert samples[..i + 1][..i] == samples[..i];
  }

  method AddUp(samples: seq<Sample>, origin: int) returns (sums: Sums)
    ensures sums == SumsOf(samples, origin)
  {
    sums := Sums(0.0, 0.0, 0.0, 0.0, 0.0);
    for i := 0 to |samples|
      invariant sums == SumsOf(samples[..i], origin)
    {
      var x, y := (samples[i].time - origin) as real, samples[i].value;
      SumsExtend(samples, i, origin, sums, x, y);
      sums := Sums(sums.n + 1.0, sums.x + x, sums.y + y, sums.xx + x * x, sums.xy + x * y);
    }
    assert samples[..|samples|] == samples;
  }

  method ComputeTrendRisk(samples: seq<Sample>, duration: int, measured: real, limit: real) returns (risk: Risk)
    ensures risk == TrendRisk(samples, duration, measured, limit)
  {
    if |samples| < 4 {
      return NoRisk;
    }
    var sums := AddUp(samples, samples[0].time);
    risk := LineRisk(sums, duration, measured, limit);
  }

  /** The products of the distances of `(x, y)` from every sample, summed. */
  function Spread(samples: seq<Sample>, origin: int, x: real, y: real): real {
    if samples == [] then 0.0
    else
      var last := samples[|samples| - 1];
      Spread(samples[..|samples| - 1], origin, x, y) + (x - Offset(last, origin)) * (y - last.value)
  }

  /** The squares of the distances of time `x` from every sample's time, summed. */
  function TimeSpread(samples: seq<Sample>, origin: int, x: real): real {
    if samples == [] then 0.0
    else
      var d := x - Offset(samples[|samples| - 1], origin);
      TimeSpread(samples[..|samples| - 1], origin, x) + d * d
  }

  function SpreadForm(s: Sums, x: real, y: real): real {
    s.xy - x * s.y - y * s.x + s.n * (x * y)
  }

  function TimeSpreadForm(s: Sums, x: real): real {
    s.xx - 2.0 * (x * s.x) + s.n * (x * x)
  }

  function Grown(s: Sums, a: real, b: real): Sums {
    Sums(s.n + 1.0, s.x + a, s.y + b, s.xx + a * a, s.xy + a * b)
  }

  lemma SpreadStep(past: real, s: Sums, x: real, y: real, a: real, b: real)
    requires past == SpreadForm(s, x, y)
    ensures past + (x - a) * (y - b) == SpreadForm(Grown(s, a, b), x, y)
  {}

  lemma TimeSpreadStep(past: real, s: Sums, x: real, a: real, b: real, d: real) returns (r: real, t: Sums)
    requires past == TimeSpreadForm(s, x) && d == x - a
    ensures r == past + d * d && t == Grown(s, a, b) && r == TimeSpreadForm(t, x)
  {
    r, t := past + d * d, Grown(s, a, b);
  }

  lemma GrowthStep(s: Sums, x: real, y: real)
    ensures Grown(s, x, y).Numerator() == s.Numerator() + SpreadForm(s, x, y)
    ensures Grown(s, x, y).Denominator() == s.Denominator() + TimeSpreadForm(s, x)
  {}

  lemma {:induction false} SpreadFromSums(samples: seq<Sample>, origin: int, x: real, y: real) returns (r: real, s: Sums)
    ensures r == Spread(samples, origin, x, y) && s == SumsOf(samples, origin)
    ensures r == SpreadForm(s, x, y)
  {
    if samples == [] {
      r, s := 0.0, Sums(0.0, 0.0, 0.0, 0.0, 0.0);
    } else {
      var past, last := samples[..|samples| - 1], samples[|samples| - 1];
      var a, b := Offset(last, origin), last.value;
      var r', s' := SpreadFromSums(past, origin, x, y);
      SpreadStep(r', s', x, y, a, b);
      r, s := r' + (x - a) * (y - b), Grown(s', a, b);
    }
  }

  lemma {:induction false} TimeSpreadFromSums(samples: seq<Sample>, origin: int, x: real) returns (r: real, s: Sums)
    ensures r == TimeSpread(samples, origin, x) && s == SumsOf(samples, origin)
    ensures r == TimeSpreadForm(s, x)
  {
    if samples == [] {
      r, s := 0.0, Sums(0.0, 0.0, 0.0, 0.0, 0.0);
    } else {
      var past, last := samples[..|samples| - 1], samples[|samples| - 1];
      var a, b := Offset(last, origin), last.value;
      var r', s' := TimeSpreadFromSums(past, origin, x);
      r, s := TimeSpreadStep(r', s', x, a, b, x - a);
    }
  }

  /** What one more sample adds to the denominator and to the numerator. */
  lemma FitGrows(samples: seq<Sample>, origin: int, past: seq<Sample>, x: real, y: real)
    requires samples != [] && past == samples[..|samples| - 1]
    requires x == Offset(samples[|samples| - 1], origin) && y == samples[|samples| - 1].value
    ensures SumsOf(samples, origin).Denominator() == SumsOf(past, origin).Denominator() + TimeSpread(past, origin, x)
    ensures SumsOf(samples, origin).Numerator() == SumsOf(past, origin).Numerator() + Spread(past, origin, x, y)
  {
    var _, _ := SpreadFromSums(past, origin, x, y);
    var _, _ := TimeSpreadFromSums(past, origin, x);
    GrowthStep(SumsOf(past, origin), x, y);
  }

  lemma Square(d: real) returns (q: real)
    ensures q == d * d && q >= 0.0 && (q == 0.0 <==> d == 0.0)
  {
    q := d * d;
    if d < 0.0 {
      q := PositiveSquare(-d, d);
    } else if d > 0.0 {
      q := PositiveSquare(d, d);
    }
  }

  lemma OffsetSquare(s: Sample, origin: int, time: int) returns (q: real)
    ensures q == ((time - origin) as real - Offset(s, origin)) * ((time - origin) as real - Offset(s, origin))
    ensures q >= 0.0 && (q == 0.0 <==> s.time == time)
  {
    q := Square((time - origin) as real - Offset(s, origin));
  }

  lemma PositiveSquare(e: real, d: real) returns (q: real)
    requires e > 0.0 && (d == e || d == -e)
    ensures q == d * d && q > 0.0
  {
    q := PositiveProduct(e, e);
    assert d * d == e * e;
  }

  lemma PositiveProduct(a: real, b: real) returns (q: real)
    requires a > 0.0 && b > 0.0
    ensures q == a * b && q > 0.0
  {
    q := a * b;
  }

  ghost predicate AllAt(samples: seq<Sample>, time: int) {
    forall i {:trigger samples[i]} :: 0 <= i < |samples| ==> samples[i].time == time
  }

  lemma {:induction false} TimeSpreadSign(samples: seq<Sample>, origin: int, time: int) returns (r: real)
    ensures r == TimeSpread(samples, origin, (time - origin) as real)
    ensures r >= 0.0 && (r == 0.0 <==> AllAt(samples, time))
  {
    if samples == [] {
      r := 0.0;
    } else {
      var past, last, x := samples[..|samples| - 1], samples[|samples| - 1], (time - origin) as real;
      var r' := TimeSpreadSign(past, origin, time);
      var q := OffsetSquare(last, origin, time);
      AllAtGrows(samples, past, last, time);
      r := r' + q;
    }
  }

  lemma AllAtGrows(samples: seq<Sample>, past: seq<Sample>, last: Sample, time: int)
    requires samples == past + [last]
    ensures AllAt(samples, time) <==> AllAt(past, time) && last.time == time
  {
    assert forall i :: 0 <= i < |past| ==> samples[i] == past[i];
    assert samples[|past|] == last;
  }

  /** The denominator, sample by sample. */
  function Dispersion(samples: seq<Sample>, origin: int): real {
    if samples == [] then 0.0
    else
      var past, last := samples[..|samples| - 1], samples[|samples| - 1];
      Dispersion(past, origin) + TimeSpread(past, origin, Offset(last, origin))
  }

  lemma {:induction false} DispersionIsDenominator(samples: seq<Sample>, origin: int) returns (s: Sums)
    ensures s == SumsOf(samples, origin) && Dispersion(samples, origin) == s.Denominator()
  {
    s := SumsOf(samples, origin);
    if samples != [] {
      var past, last := samples[..|samples| - 1], samples[|samples| - 1];
      var t := DispersionIsDenominator(past, origin);
      FitGrows(samples, origin, past, Offset(last, origin), last.value);
    }
  }

  ghost predicate AllCoincide(samples: seq<Sample>) {
    forall i, j {:trigger samples[i], samples[j]} :: 0 <= i < j < |samples| ==> samples[i].time == samples[j].time
  }

  lemma CoincideGrows(samples: seq<Sample>, past: seq<Sample>, last: Sample)
    requires samples == past + [last]
    ensures AllCoincide(samples) <==> AllAt(past, last.time)
  {
    assert forall i :: 0 <= i < |past| ==> samples[i] == past[i];
    assert samples[|past|] == last;
  }

  lemma AllAtCoincide(samples: seq<Sample>, time: int)
    requires AllAt(samples, time)
    ensures AllCoincide(samples)
  {}

  lemma {:induction false} DispersionSign(samples: seq<Sample>, origin: int)
    ensures Dispersion(samples, origin) >= 0.0
    ensures Dispersion(samples, origin) == 0.0 <==> AllCoincide(samples)
  {
    if samples != [] {
      var past, last := samples[..|samples| - 1], samples[|samples| - 1];
      DispersionSign(past, origin);
      var _ := TimeSpreadSign(past, origin, last.time);
      CoincideGrows(samples, past, last);
      if AllAt(past, last.time) {
        AllAtCoincide(past, last.time);
      }
    }
  }

  /** The least-squares denominator is never negative, and is zero exactly when all sample times
      coincide. */
  lemma DenominatorSign(samples: seq<Sample>, origin: int)
    ensures SumsOf(samples, origin).Denominator() >= 0.0
    ensures SumsOf(samples, origin).Denominator() == 0.0 <==> AllCoincide(samples)
  {
    var _ := DispersionIsDenominator(samples, origin);
    DispersionSign(samples, origin);
  }

  /** Later samples are never larger. */
  predicate NeverRises(samples: seq<Sample>) {
    forall i, j {:trigger samples[i], samples[j]} ::
      0 <= i < j < |samples| && samples[i].time <= samples[j].time ==> samples[i].value >= samples[j].value
  }

  lemma {:induction false} SpreadFalls(samples: seq<Sample>, origin: int, last: Sample) returns (r: real)
    requires forall i {:trigger samples[i]} :: 0 <= i < |samples| ==>
      samples[i].time <= last.time && samples[i].value >= last.value
    ensures r == Spread(samples, origin, Offset(last, origin), last.value) && r <= 0.0
  {
    if samples == [] {
      r := 0.0;
    } else {
      var past, s := samples[..|samples| - 1], samples[|samples| - 1];
      var r' := SpreadFalls(past, origin, last);
      var a, b := Offset(last, origin) - Offset(s, origin), last.value - s.value;
      OppositeSigns(a, b);
      r := r' + a * b;
    }
  }

  lemma OppositeSigns(a: real, b: real)
    requires a >= 0.0 && b <= 0.0
    ensures a * b <= 0.0
  {}

  /** The numerator, sample by sample. */
  function Covariance(samples: seq<Sample>, origin: int): real {
    if samples == [] then 0.0
    else
      var past, last := samples[..|samples| - 1], samples[|samples| - 1];
      Covariance(past, origin) + Spread(past, origin, Offset(last, origin), last.value)
  }

  lemma {:induction false} CovarianceIsNumerator(samples: seq<Sample>, origin: int) returns (s: Sums)
    ensures s == SumsOf(samples, origin) && Covariance(samples, origin) == s.Numerator()
  {
    s := SumsOf(samples, origin);
    if samples != [] {
      var past, last := samples[..|samples| - 1], samples[|samples| - 1];
      var t := CovarianceIsNumerator(past, origin);
      FitGrows(samples, origin, past, Offset(last, origin), last.value);
    }
  }

  lemma {:induction false} CovarianceFalls(samples: seq<Sample>, origin: int)
    requires Ordered(samples) && NeverRises(samples)
    ensures Covariance(samples, origin) <= 0.0
  {
    if samples != [] {
      var past, last := samples[..|samples| - 1], samples[|samples| - 1];
      FrontFalls(samples, past, last);
      CovarianceFalls(past, origin);
      var _ := SpreadFalls(past, origin, last);
    }
  }

  /** Chebyshev's sum inequality: over samples in time order whose values never rise, the
      covariance is not positive. */
  lemma NumeratorFalls(samples: seq<Sample>, origin: int)
    requires Ordered(samples) && NeverRises(samples)
    ensures SumsOf(samples, origin).Numerator() <= 0.0
  {
    CovarianceFalls(samples, origin);
    var _ := CovarianceIsNumerator(samples, origin);
  }

  lemma FrontFalls(samples: seq<Sample>, past: seq<Sample>, last: Sample)
    requires samples != [] && past == samples[..|samples| - 1] && last == samples[|samples| - 1]
    requires Ordered(samples) && NeverRises(samples)
    ensures Ordered(past) && NeverRises(past)
    ensures forall i {:trigger past[i]} :: 0 <= i < |past| ==> past[i].time <= last.time && past[i].value >= last.value
  {
    OrderedFront(samples, |samples| - 1);
    forall i | 0 <= i < |past| ensures past[i].time <= last.time && past[i].value >= last.value {
      OrderedPair(samples, i, |samples| - 1);
    }
  }

  lemma QuotientSignReal(a: real, b: real)
    requires b > 0.0
    ensures a <= 0.0 <==> a / b <= 0.0
  {
    var q := a / b;
    assert q * b == a;
    if q <= 0.0 {
      OppositeSigns(b, q);
    }
  }

  /** A rising trend is predicted only where the covariance is positive. */
  lemma RiskNeedsRise(samples: seq<Sample>, duration: int, measured: real, limit: real)
    requires TrendRisk(samples, duration, measured, limit) != NoRisk
    ensures |samples| >= 4 && SumsOf(samples, samples[0].time).Numerator() > 0.0
  {
    var s := SumsOf(samples, samples[0].time);
    DenominatorSign(samples, samples[0].time);
    QuotientSignReal(s.Numerator(), s.Denominator());
  }

  /** A window reached by any run of arrivals, whose values never rise over time, predicts no risk. */
  lemma NoRiskWithoutRise(w: Window, h: seq<Sample>, duration: int, measured: real, limit: real)
    requires Holds(w, h) && NeverRises(w.samples)
    ensures TrendRisk(w.samples, duration, measured, limit) == NoRisk
  {
    if TrendRisk(w.samples, duration, measured, limit) != NoRisk {
      RiskNeedsRise(w.samples, duration, measured, limit);
      HeldIsOrdered(w, h);
      NumeratorFalls(w.samples, w.samples[0].time);
      assert false;
    }
  }

  /** The projection of a line with covariance `c` and dispersion `d` is above `limit`, multiplied out. */
  predicate Projects(c: real, d: real, duration: int, measured: real, limit: real) {
    c > 0.0 && d > 0.0 && measured * d + c * (if duration > 0 then duration else 60_000_000_000) as real > limit * d
  }

  /** What a line predicts, by the pairwise sums over the samples: with four samples that rise, the projection
      over the window's length, or over a minute where there is none, is above the limit, or above one and
      a half times the limit. */
  lemma RiskExactly(samples: seq<Sample>, duration: int, measured: real, limit: real, c: real, d: real)
    requires samples != [] && c == Covariance(samples, samples[0].time) && d == Dispersion(samples, samples[0].time)
    ensures var risk := TrendRisk(samples, duration, measured, limit);
      && (risk == High <==> |samples| >= 4 && Projects(c, d, duration, measured, limit * 1.5))
      && (risk == Elevated <==>
            |samples| >= 4 && Projects(c, d, duration, measured, limit) && !Projects(c, d, duration, measured, limit * 1.5))
  {
    if |samples| >= 4 {
      var s := DispersionIsDenominator(samples, samples[0].time);
      var _ := CovarianceIsNumerator(samples, samples[0].time);
      DispersionSign(samples, samples[0].time);
      LineRiskExactly(s, duration, measured, limit, c, d);
    }
  }

  lemma LineRiskExactly(s: Sums, duration: int, measured: real, limit: real, c: real, d: real)
    requires c == s.Numerator() && d == s.Denominator() && d >= 0.0
    ensures LineRisk(s, duration, measured, limit) == High <==> Projects(c, d, duration, measured, limit * 1.5)
    ensures LineRisk(s, duration, measured, limit) == Elevated
      <==> Projects(c, d, duration, measured, limit) && !Projects(c, d, duration, measured, limit * 1.5)
  {
    if d > 0.0 {
      QuotientSignReal(c, d);
      Projected(measured, c, d, (if duration > 0 then duration else 60_000_000_000) as real, limit);
      Projected(measured, c, d, (if duration > 0 then duration else 60_000_000_000) as real, limit * 1.5);
    }
  }

  lemma Projected(measured: real, c: real, d: real, h: real, limit: real)
    requires d > 0.0
    ensures measured + c / d * h > limit <==> measured * d + c * h > limit * d
  {
    var p := measured + c / d * h;
    assert p * d == measured * d + c * h by {
      var q := c / d;
      assert q * d == c;
      SlopeBack(measured, q, h, d);
    }
    Scale(p, limit, d);
  }

  lemma SlopeBack(m: real, q: real, h: real, d: real)
    ensures (m + q * h) * d == m * d + q * d * h
  {}

  lemma Scale(a: real, b: real, d: real)
    requires d > 0.0
    ensures a > b <==> a * d > b * d
  {
    if a > b {
      assert (a - b) * d > 0.0;
    } else {
      assert (b - a) * d >= 0.0;
    }
  }
}
