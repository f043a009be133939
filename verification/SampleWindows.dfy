/** Evaluation windows: what one sample does to a window, the window object that does it, and the
    window that a whole history of samples amounts to. */
module SampleWindows {
  import opened Types

  datatype Sample = Sample(time: int, value: real, seqNo: nat)

  datatype IngestStatus = Accepted | Duplicate | Rollback | Late | Closed | Invalid

  datatype Window = Window(
    kind: WindowType, interval: int, capacity: nat,
    samples: seq<Sample>, lastTime: int, lastSeq: nat, bucketStart: int, hasBucket: bool)

  function Empty(kind: WindowType, interval: int, capacity: nat): Window {
    Window(kind, interval, if capacity == 0 then 1 else capacity, [], 0, 0, 0, false)
  }

  /** 1e300, the largest value that a window takes. */
  const MAX_VALUE: real := 1_000_000_000_000_000_000_000_000_000_000_000_000_000_000_000_000_000_000_000_000_000_000_000_000_000_000_000_000_000_000_000_000_000_000_000_000_000_000_000_000_000_000_000_000_000_000_000_000_000_000_000_000_000_000_000_000_000_000_000_000_000_000_000_000_000_000_000_000_000_000_000_000_000_000_000_000_000_000_000_000_000_000_000_000_000_000_000_000_000_000_000_000_000_000_000_000_000_000_000_000.0

  /** Integer division that truncates toward zero. */
  function Quotient(a: int, b: int): int
    requires b > 0
    decreases if a >= 0 then a else -a
  {
    if a >= b then 1 + Quotient(a - b, b)
    else if a <= -b then Quotient(a + b, b) - 1
    else 0
  }

  lemma {:induction false} QuotientIsDivision(a: int, b: int)
    requires b > 0
    ensures Quotient(a, b) == if a >= 0 then a / b else -((-a) / b)
    decreases if a >= 0 then a else -a
  {
    if a >= b {
      QuotientIsDivision(a - b, b);
      DivideOnce(a, b);
    } else if a <= -b {
      QuotientIsDivision(a + b, b);
      DivideOnce(-a, b);
    } else if a >= 0 {
      DivideSmall(a, b);
    } else {
      DivideSmall(-a, b);
    }
  }

  lemma DivideSmall(a: nat, b: int)
    requires a < b
    ensures a / b == 0
  {}

  lemma DivideOnce(a: nat, b: int)
    requires a >= b > 0
    ensures a / b == (a - b) / b + 1
  {
    var q := (a - b) / b;
    assert a == b * (q + 1) + (a - b) % b;
    DivideUnique(a, b, q + 1, (a - b) % b);
  }

  lemma DivideUnique(a: nat, b: int, q: nat, r: nat)
    requires b > 0 && a == b * q + r && r < b
    ensures a / b == q
  {
    var d := a / b;
    assert a == b * d + a % b;
    if d < q {
      MultipleLe(d, q, b);
    } else if q < d {
      MultipleLe(q, d, b);
    }
  }

  lemma MultipleLe(q: int, p: int, b: int)
    requires b > 0 && q < p
    ensures q * b + b <= p * b
  {
    var d := p - q - 1;
    MultipleNotNegative(d, b);
    assert p * b == (q + 1 + d) * b == q * b + b + d * b;
  }

  lemma {:induction false} MultipleNotNegative(d: nat, b: int)
    requires b > 0
    ensures d * b >= 0
  {
    if d > 0 {
      MultipleNotNegative(d - 1, b);
      assert d * b == (d - 1) * b + b;
    }
  }

  /** How many samples at the front are not younger than `cut`. */
  function Stale(s: seq<Sample>, cut: int): (k: nat)
    ensures k <= |s|
  {
    if s == [] || s[0].time > cut then 0 else 1 + Stale(s[1..], cut)
  }

  function LastOf<T>(s: seq<T>, n: nat): seq<T> {
    if |s| <= n then s else s[|s| - n..]
  }

  function Evict(s: seq<Sample>, now: int, interval: int): seq<Sample> {
    if interval <= 0 then s else s[Stale(s, now - interval)..]
  }

  /** What a window becomes when a sample arrives, and the verdict on the sample. */
  function Ingest(w: Window, x: Sample): (Window, IngestStatus) {
    if x.value > MAX_VALUE then (w, Invalid)
    else if x.seqNo <= w.lastSeq then (w, Duplicate)
    else if !w.hasBucket then
      (w.(lastTime := x.time, lastSeq := x.seqNo, bucketStart := x.time, hasBucket := true,
          samples := w.samples + [x]), Accepted)
    else if x.time < w.lastTime then (w, Rollback)
    else
      var w := w.(lastSeq := x.seqNo);
      match w.kind
      case Instantaneous => (w.(samples := [x], lastTime := x.time), Accepted)
      case Sliding =>
        (w.(samples := LastOf(Evict(w.samples + [x], x.time, w.interval), w.capacity), lastTime := x.time), Accepted)
      case RollingCount => (w.(samples := LastOf(w.samples + [x], w.capacity), lastTime := x.time), Accepted)
      case _ =>
        if w.interval <= 0 then (w, Invalid)
        else
          var bucket := Quotient(x.time, w.interval);
          var current := Quotient(w.bucketStart, w.interval);
          if bucket < current then (w.(lastTime := x.time), Late)
          else if bucket > current then
            (w.(samples := [x], bucketStart := bucket * w.interval, lastTime := x.time), Accepted)
          else (w.(samples := w.samples + [x], lastTime := x.time), Accepted)
  }

  /** A value as it is offered to a window: a double may be none that a real can stand for. */
  datatype Reading = Number(value: real) | PlusInfinity | NotANumber

  /** What a window makes of a reading: what is not a number, or too large, is invalid. */
  function Offer(w: Window, time: int, reading: Reading, seqNo: nat): (Window, IngestStatus) {
    if reading.Number? then Ingest(w, Sample(time, reading.value, seqNo)) else (w, Invalid)
  }

  // ----- The window object -----

  class SampleWindow {
    const kind: WindowType
    const interval: int
    const capacity: nat
    var samples: seq<Sample>
    var lastTime: int
    var lastSeq: nat
    var bucketStart: int
    var hasBucket: bool

    function Contents(): Window
      reads this
    {
      Window(kind, interval, capacity, samples, lastTime, lastSeq, bucketStart, hasBucket)
    }

    constructor (kind: WindowType, interval: int, capacity: nat)
      ensures Contents() == Empty(kind, interval, capacity)
    {
      this.kind := kind;
      this.interval := interval;
      this.capacity := if capacity == 0 then 1 else capacity;
      samples, lastTime, lastSeq, bucketStart, hasBucket := [], 0, 0, 0, false;
    }

    constructor Holding(w: Window)
      ensures Contents() == w
    {
      kind, interval, capacity := w.kind, w.interval, w.capacity;
      samples, lastTime, lastSeq := w.samples, w.lastTime, w.lastSeq;
      bucketStart, hasBucket := w.bucketStart, w.hasBucket;
    }

    method Push(time: int, reading: Reading, seqNo: nat) returns (status: IngestStatus)
      modifies this
      ensures (Contents(), status) == Offer(old(Contents()), time, reading, seqNo)
    {
      if !reading.Number? || reading.value > MAX_VALUE {
        return Invalid;
      }
      var x := Sample(time, reading.value, seqNo);
      if x.seqNo <= lastSeq {
        return Duplicate;
      }
      if !hasBucket {
        lastTime, lastSeq, bucketStart, hasBucket := x.time, x.seqNo, x.time, true;
        samples := samples + [x];
        return Accepted;
      }
      if x.time < lastTime {
        return Rollback;
      }
      lastSeq := x.seqNo;
      match kind {
        case Instantaneous =>
          samples := [x];
        case Sliding =>
          samples := samples + [x];
          EvictByAge(x.time);
          EvictByCount();
        case RollingCount =>
          samples := samples + [x];
          EvictByCount();
        case _ =>
          if interval <= 0 {
            return Invalid;
          }
          var bucket := Quotient(x.time, interval);
          var current := Quotient(bucketStart, interval);
          if bucket < current {
            lastTime := x.time;
            return Late;
          }
          if bucket > current {
            samples := [];
            bucketStart := bucket * interval;
            assert [] + [x] == [x];
          }
          samples := samples + [x];
      }
      lastTime := x.time;
      status := Accepted;
    }

    method EvictByAge(now: int)
      modifies this`samples
      ensures samples == Evict(old(samples), now, interval)
    {
      if interval <= 0 {
        return;
      }
      while samples != [] && now - samples[0].time >= interval
        invariant samples[Stale(samples, now - interval)..] == old(samples)[Stale(old(samples), now - interval)..]
        decreases |samples|
      {
        samples := samples[1..];
      }
    }

    method EvictByCount()
      modifies this`samples
      ensures samples == LastOf(old(samples), capacity)
    {
      while |samples| > capacity
        invariant |samples| >= capacity || samples == old(samples)
        invariant |samples| <= |old(samples)| && samples == old(samples)[|old(samples)| - |samples|..]
        decreases |samples|
      {
        samples := samples[1..];
      }
    }
  }

  // ----- The window of a whole history -----

  /** The samples that a run of arrivals got accepted, in order. */
  function History(w: Window, xs: seq<Sample>): seq<Sample> {
    if xs == [] then []
    else
      var past, x := xs[..|xs| - 1], xs[|xs| - 1];
      if Ingest(After(w, past), x).1 == Accepted then History(w, past) + [x] else History(w, past)
  }

  function After(w: Window, xs: seq<Sample>): Window {
    if xs == [] then w else Ingest(After(w, xs[..|xs| - 1]), xs[|xs| - 1]).0
  }

  /** The samples taken later than `cut`. */
  function Younger(h: seq<Sample>, cut: int): seq<Sample> {
    if h == [] then []
    else if h[0].time > cut then [h[0]] + Younger(h[1..], cut)
    else Younger(h[1..], cut)
  }

  /** The samples in the bucket with number `b`. */
  function InBucket(h: seq<Sample>, interval: int, b: int): seq<Sample>
    requires interval > 0
  {
    if h == [] then []
    else
      var past := InBucket(h[..|h| - 1], interval, b);
      if Quotient(h[|h| - 1].time, interval) == b then past + [h[|h| - 1]] else past
  }

  /** The batch specification: what the window should hold, said of the accepted history alone. */
  function Batch(kind: WindowType, interval: int, capacity: nat, h: seq<Sample>): seq<Sample> {
    if h == [] then []
    else
      var newest := h[|h| - 1].time;
      match kind
      case Instantaneous => [h[|h| - 1]]
      case Sliding =>
        if interval <= 0 then LastOf(h, capacity) else Younger(LastOf(h, capacity), newest - interval)
      case RollingCount => LastOf(h, capacity)
      case _ => if interval <= 0 then h else InBucket(h, interval, Quotient(newest, interval))
  }

  /** Times never fall and sequence numbers rise. */
  predicate Ordered(h: seq<Sample>) {
    |h| > 1 ==> h[0].time <= h[1].time && h[0].seqNo < h[1].seqNo && Ordered(h[1..])
  }

  lemma {:induction false} OrderedPair(h: seq<Sample>, i: nat, j: nat)
    requires Ordered(h) && i < j < |h|
    ensures h[i].time <= h[j].time && h[i].seqNo < h[j].seqNo
  {
    if i > 0 {
      OrderedPair(h[1..], i - 1, j - 1);
    } else if j > 1 {
      OrderedPair(h[1..], 0, j - 1);
    }
  }

  lemma {:induction false} OrderedTail(h: seq<Sample>, a: nat)
    requires Ordered(h) && a <= |h|
    ensures Ordered(h[a..])
  {
    if a > 0 {
      OrderedTail(h[1..], a - 1);
      assert h[1..][a - 1..] == h[a..];
    }
  }

  /** A window that holds what the batch specification says of history `h`. */
  ghost predicate Holds(w: Window, h: seq<Sample>) {
    && w.capacity >= 1 && Ordered(h)
    && w.samples == Batch(w.kind, w.interval, w.capacity, h)
    && (w.hasBucket <==> h != [])
    && (h != [] ==> w.lastTime == h[|h| - 1].time && h[|h| - 1].seqNo <= w.lastSeq)
    && ((w.kind.Tumbling? || w.kind.FixedInterval?) && h != [] ==>
          if w.interval > 0 then Quotient(w.bucketStart, w.interval) == Quotient(w.lastTime, w.interval)
          else |h| == 1)
  }

  lemma {:induction false} QuotientMonotone(a: int, c: int, b: int)
    requires b > 0 && a <= c
    ensures Quotient(a, b) <= Quotient(c, b)
    decreases (if a >= 0 then a else -a) + (if c >= 0 then c else -c)
  {
    QuotientSign(a, b);
    QuotientSign(c, b);
    if a >= b {
      QuotientMonotone(a - b, c - b, b);
    } else if c <= -b {
      QuotientMonotone(a + b, c + b, b);
    }
  }

  lemma {:induction false} QuotientSign(a: int, b: int)
    requires b > 0
    ensures a >= 0 ==> Quotient(a, b) >= 0
    ensures a <= 0 ==> Quotient(a, b) <= 0
    decreases if a >= 0 then a else -a
  {
    if a >= b {
      QuotientSign(a - b, b);
    } else if a <= -b {
      QuotientSign(a + b, b);
    }
  }

  lemma {:induction false} QuotientExact(q: int, b: int, p: int)
    requires b > 0 && p == q * b
    ensures Quotient(p, b) == q
    decreases if q >= 0 then q else -q
  {
    if q > 0 {
      MultipleLe(0, q, b);
      assert (q - 1) * b == p - b;
      QuotientExact(q - 1, b, p - b);
    } else if q < 0 {
      MultipleLe(q, 0, b);
      assert (q + 1) * b == p + b;
      QuotientExact(q + 1, b, p + b);
    }
  }

  lemma {:induction false} YoungerIsTail(h: seq<Sample>, cut: int)
    requires Ordered(h)
    ensures Younger(h, cut) == h[Stale(h, cut)..]
  {
    if h != [] {
      YoungerIsTail(h[1..], cut);
    }
  }

  lemma {:induction false} StaleOfTail(h: seq<Sample>, a: nat, cut: int)
    requires Ordered(h) && a <= |h|
    ensures Stale(h[a..], cut) == if a <= Stale(h, cut) then Stale(h, cut) - a else 0
  {
    if a > 0 {
      assert h[1..][a - 1..] == h[a..];
      if h[0].time <= cut {
        StaleOfTail(h[1..], a - 1, cut);
      } else if a < |h| {
        OrderedPair(h, 0, a);
      }
    }
  }

  function Max(a: int, b: int): int {
    if a >= b then a else b
  }

  lemma SlidingBatchIsTail(h: seq<Sample>, interval: int, capacity: nat, k: nat)
    requires interval > 0 && h != [] && Ordered(h)
    requires k == Max(Max(0, |h| - capacity), Stale(h, h[|h| - 1].time - interval))
    ensures k <= |h| && Batch(Sliding, interval, capacity, h) == h[k..]
  {
    var a, cut := Max(0, |h| - capacity), h[|h| - 1].time - interval;
    assert LastOf(h, capacity) == h[a..];
    TailYoung(h, a, cut);
    assert k == if a <= Stale(h, cut) then Stale(h, cut) else a;
  }

  lemma LastOfTail<T>(g: seq<T>, k: nat, m: nat, n: nat)
    requires k + m <= |g|
    ensures LastOf(g[k..][m..], n) == g[Max(k + m, |g| - n)..]
  {
    assert g[k..][m..] == g[k + m..];
    if |g| - n > k + m {
      assert g[k + m..][|g| - k - m - n..] == g[|g| - n..];
    }
  }

  /** Cutting by age and then by count, from a tail that an earlier cut left, is cutting once. */
  lemma CutOnce<T>(g: seq<T>, n: nat, before: nat, after: nat, k: nat, m: nat, k': nat)
    requires n >= 1 && before <= after < |g|
    requires k == Max(Max(0, |g| - 1 - n), before) && m == if k <= after then after - k else 0
    requires k' == Max(Max(0, |g| - n), after)
    ensures k + m <= |g| && k' <= |g|
    ensures LastOf(g[k..][m..], n) == g[k'..]
  {
    LastOfTail(g, k, m, n);
    assert Max(k + m, |g| - n) == k';
  }

  /** Evicting step by step leaves the tail of the history that starts at the first sample both
      young enough and recent enough. */
  lemma SlidingStep(h: seq<Sample>, x: Sample, interval: int, capacity: nat)
    requires capacity >= 1 && interval > 0 && h != [] && Ordered(h) && Ordered(h + [x])
    requires h[|h| - 1].time <= x.time
    ensures LastOf(Evict(Batch(Sliding, interval, capacity, h) + [x], x.time, interval), capacity)
         == Batch(Sliding, interval, capacity, h + [x])
  {
    var k := Max(Max(0, |h| - capacity), Stale(h, h[|h| - 1].time - interval));
    var k' := Max(Max(0, |h| + 1 - capacity), Stale(h + [x], x.time - interval));
    SlidingBatchIsTail(h, interval, capacity, k);
    GrownBatchIsTail(h, x, interval, capacity, k');
    SlidingCut(h, x, interval, capacity, k, k', Batch(Sliding, interval, capacity, h));
  }

  lemma GrownBatchIsTail(h: seq<Sample>, x: Sample, interval: int, capacity: nat, k': nat)
    requires interval > 0 && Ordered(h + [x])
    requires k' == Max(Max(0, |h| + 1 - capacity), Stale(h + [x], x.time - interval))
    ensures k' <= |h| + 1 && Batch(Sliding, interval, capacity, h + [x]) == (h + [x])[k'..]
  {
    var g := h + [x];
    assert g[|g| - 1].time - interval == x.time - interval;
    SlidingBatchIsTail(g, interval, capacity, k');
  }

  lemma SlidingCut(h: seq<Sample>, x: Sample, interval: int, capacity: nat, k: nat, k': nat, held: seq<Sample>)
    requires capacity >= 1 && interval > 0 && h != [] && Ordered(h + [x]) && h[|h| - 1].time <= x.time
    requires k == Max(Max(0, |h| - capacity), Stale(h, h[|h| - 1].time - interval)) && k <= |h| && held == h[k..]
    requires k' == Max(Max(0, |h| + 1 - capacity), Stale(h + [x], x.time - interval))
    ensures k' <= |h| + 1 && LastOf(Evict(held + [x], x.time, interval), capacity) == (h + [x])[k'..]
  {
    var g, cut, cut' := h + [x], h[|h| - 1].time - interval, x.time - interval;
    TailGrows(h, x, k, held);
    StaleGrows(h, x, cut, cut');
    EvictCut(g, x.time, interval, capacity, Stale(h, cut), Stale(g, cut'), k, k');
  }

  lemma EvictCut(g: seq<Sample>, now: int, interval: int, capacity: nat, before: nat, after: nat, k: nat, k': nat)
    requires Ordered(g) && interval > 0 && capacity >= 1
    requires after == Stale(g, now - interval) && before <= after < |g|
    requires k == Max(Max(0, |g| - 1 - capacity), before) && k' == Max(Max(0, |g| - capacity), after)
    ensures k <= |g| && k' <= |g|
    ensures LastOf(Evict(g[k..], now, interval), capacity) == g[k'..]
  {
    var m := Stale(g[k..], now - interval);
    StaleOfTail(g, k, now - interval);
    CutOnce(g, capacity, before, after, k, m, k');
    assert Evict(g[k..], now, interval) == g[k..][m..];
  }

  lemma TailGrows<T>(h: seq<T>, x: T, k: nat, held: seq<T>)
    requires k <= |h| && held == h[k..]
    ensures held + [x] == (h + [x])[k..]
  {}

  lemma TailYoung(h: seq<Sample>, a: nat, cut: int)
    requires Ordered(h) && a <= |h|
    ensures Younger(h[a..], cut) == if a <= Stale(h, cut) then h[Stale(h, cut)..] else h[a..]
  {
    OrderedTail(h, a);
    YoungerIsTail(h[a..], cut);
    StaleOfTail(h, a, cut);
  }

  lemma {:induction false} StaleGrows(h: seq<Sample>, x: Sample, cut: int, cut': int)
    requires cut <= cut' < x.time
    ensures Stale(h, cut) <= Stale(h + [x], cut') <= |h|
  {
    if h != [] {
      assert (h + [x])[1..] == h[1..] + [x];
      StaleGrows(h[1..], x, cut, cut');
    }
  }

  lemma {:induction false} NoneInBucket(h: seq<Sample>, interval: int, b: int)
    requires interval > 0 && forall i {:trigger h[i]} :: 0 <= i < |h| ==> Quotient(h[i].time, interval) != b
    ensures InBucket(h, interval, b) == []
  {
    if h != [] {
      var past := h[..|h| - 1];
      assert forall i :: 0 <= i < |past| ==> past[i] == h[i];
      NoneInBucket(past, interval, b);
    }
  }

  lemma BucketStep(h: seq<Sample>, x: Sample, interval: int)
    requires interval > 0 && h != [] && Ordered(h + [x])
    ensures var b, c := Quotient(h[|h| - 1].time, interval), Quotient(x.time, interval);
      && b <= c
      && InBucket(h + [x], interval, c) == if b == c then InBucket(h, interval, b) + [x] else [x]
  {
    var g := h + [x];
    var b, c := Quotient(h[|h| - 1].time, interval), Quotient(x.time, interval);
    assert g[..|h|] == h && g[|h| - 1] == h[|h| - 1] && g[|h|] == x;
    OrderedPair(g, |h| - 1, |h|);
    QuotientMonotone(h[|h| - 1].time, x.time, interval);
    if b != c {
      forall i | 0 <= i < |h| ensures Quotient(h[i].time, interval) != c {
        assert g[i] == h[i];
        if i < |h| - 1 {
          OrderedPair(g, i, |h| - 1);
        }
        QuotientMonotone(h[i].time, h[|h| - 1].time, interval);
      }
      NoneInBucket(h, interval, c);
    }
  }

  /** One arrival keeps the window equal to its batch specification, and is never found late. */
  lemma IngestKeepsBatch(w: Window, h: seq<Sample>, x: Sample)
    requires Holds(w, h)
    ensures var (w', status) := Ingest(w, x);
      && status != Late && status != Closed
      && Holds(w', if status == Accepted then h + [x] else h)
  {
    NeverLate(w, h, x);
    if Ingest(w, x).1 == Accepted {
      if h == [] {
        FirstSample(w, x);
        assert h + [x] == [x];
      } else {
        OrderedGrows(h, x);
        AcceptedKeepsBatch(w, h, x);
      }
    }
  }

  lemma NeverLate(w: Window, h: seq<Sample>, x: Sample)
    requires Holds(w, h)
    ensures Ingest(w, x).1 != Late && Ingest(w, x).1 != Closed
  {
    if w.hasBucket && w.interval > 0 && w.lastTime <= x.time {
      QuotientMonotone(w.lastTime, x.time, w.interval);
    }
  }

  lemma FirstSample(w: Window, x: Sample)
    requires Holds(w, []) && Ingest(w, x).1 == Accepted
    ensures Holds(Ingest(w, x).0, [x])
  {
    FirstBatch(w.kind, w.interval, w.capacity, x);
    FirstIngest(w, x);
  }

  lemma FirstIngest(w: Window, x: Sample)
    requires w.samples == [] && !w.hasBucket && Ingest(w, x).1 == Accepted
    ensures Ingest(w, x).0
         == w.(samples := [x], lastTime := x.time, lastSeq := x.seqNo, bucketStart := x.time, hasBucket := true)
  {
    assert [] + [x] == [x];
  }

  lemma FirstBatch(kind: WindowType, interval: int, capacity: nat, x: Sample)
    requires capacity >= 1
    ensures Batch(kind, interval, capacity, [x]) == [x]
  {
    if interval > 0 {
      assert Younger([x], x.time - interval) == [x];
      assert [x][..0] == [];
      assert InBucket([x], interval, Quotient(x.time, interval)) == [x];
    }
  }

  lemma {:induction false} OrderedGrows(h: seq<Sample>, x: Sample)
    requires Ordered(h) && h != [] && h[|h| - 1].time <= x.time && h[|h| - 1].seqNo < x.seqNo
    ensures Ordered(h + [x])
  {
    assert (h + [x])[1..] == h[1..] + [x];
    if |h| > 1 {
      OrderedGrows(h[1..], x);
    }
  }

  lemma AcceptedKeepsBatch(w: Window, h: seq<Sample>, x: Sample)
    requires Holds(w, h) && h != [] && Ordered(h + [x]) && Ingest(w, x).1 == Accepted
    ensures Holds(Ingest(w, x).0, h + [x])
  {
    assert (h + [x])[|h|] == x;
    match w.kind
    case Instantaneous =>
    case Sliding => AcceptedSliding(w, h, x);
    case RollingCount => LastStep(h, x, w.capacity);
    case _ => AcceptedBucket(w, h, x);
  }

  lemma AcceptedSliding(w: Window, h: seq<Sample>, x: Sample)
    requires Holds(w, h) && h != [] && Ordered(h + [x]) && Ingest(w, x).1 == Accepted && w.kind.Sliding?
    ensures Ingest(w, x).0.samples == Batch(Sliding, w.interval, w.capacity, h + [x])
  {
    if w.interval > 0 {
      SlidingStep(h, x, w.interval, w.capacity);
    } else {
      LastStep(h, x, w.capacity);
    }
  }

  lemma AcceptedBucket(w: Window, h: seq<Sample>, x: Sample)
    requires Holds(w, h) && h != [] && Ordered(h + [x]) && Ingest(w, x).1 == Accepted
    requires w.kind.Tumbling? || w.kind.FixedInterval?
    ensures Holds(Ingest(w, x).0, h + [x])
  {
    var w' := Ingest(w, x).0;
    BucketIngest(w, x);
    BucketKeeps(h, x, w.interval, w.samples, w'.samples, w.bucketStart, w'.bucketStart);
    BucketHolds(w', h + [x]);
  }

  lemma BucketHolds(w: Window, g: seq<Sample>)
    requires (w.kind.Tumbling? || w.kind.FixedInterval?) && w.interval > 0 && w.capacity >= 1 && Ordered(g) && g != []
    requires w.hasBucket && w.lastTime == g[|g| - 1].time && w.lastSeq == g[|g| - 1].seqNo
    requires w.samples == InBucket(g, w.interval, Quotient(w.lastTime, w.interval))
    requires Quotient(w.bucketStart, w.interval) == Quotient(w.lastTime, w.interval)
    ensures Holds(w, g)
  {}

  lemma BucketIngest(w: Window, x: Sample)
    requires w.hasBucket && Ingest(w, x).1 == Accepted && (w.kind.Tumbling? || w.kind.FixedInterval?)
    ensures w.interval > 0
    ensures var w' := Ingest(w, x).0;
      && w'.kind == w.kind && w'.interval == w.interval && w'.capacity == w.capacity
      && w'.hasBucket && w'.lastTime == x.time && w'.lastSeq == x.seqNo
    ensures var w', bucket, current := Ingest(w, x).0, Quotient(x.time, w.interval), Quotient(w.bucketStart, w.interval);
      if bucket == current then w'.samples == w.samples + [x] && w'.bucketStart == w.bucketStart
      else w'.samples == [x] && w'.bucketStart == bucket * w.interval
  {}

  lemma BucketKeeps(h: seq<Sample>, x: Sample, interval: int,
                    samples: seq<Sample>, samples': seq<Sample>, start: int, start': int)
    requires interval > 0 && h != [] && Ordered(h + [x])
    requires samples == InBucket(h, interval, Quotient(h[|h| - 1].time, interval))
    requires Quotient(start, interval) == Quotient(h[|h| - 1].time, interval)
    requires if Quotient(x.time, interval) == Quotient(start, interval) then samples' == samples + [x] && start' == start
             else samples' == [x] && start' == Quotient(x.time, interval) * interval
    ensures samples' == InBucket(h + [x], interval, Quotient(x.time, interval))
    ensures Quotient(start', interval) == Quotient(x.time, interval)
  {
    BucketStep(h, x, interval);
    QuotientExact(Quotient(x.time, interval), interval, Quotient(x.time, interval) * interval);
  }

  lemma LastStep<T>(h: seq<T>, x: T, n: nat)
    requires n >= 1
    ensures LastOf(LastOf(h, n) + [x], n) == LastOf(h + [x], n)
  {}

  /** After any run of arrivals at an empty window, the window is the batch specification of the
      accepted history, which is in order of time and of sequence number. */
  lemma {:induction false} WindowIsBatch(kind: WindowType, interval: int, capacity: nat, xs: seq<Sample>)
    ensures var w0 := Empty(kind, interval, capacity);
      Holds(After(w0, xs), History(w0, xs))
  {
    var w0 := Empty(kind, interval, capacity);
    if xs != [] {
      var past := xs[..|xs| - 1];
      WindowIsBatch(kind, interval, capacity, past);
      IngestKeepsBatch(After(w0, past), History(w0, past), xs[|xs| - 1]);
    }
  }

  /** The verdict on a reading, for a window reached by any run: `Late` and `Closed` never occur, so one
      that no earlier test refuses is accepted. */
  lemma VerdictIsExact(kind: WindowType, interval: int, capacity: nat, xs: seq<Sample>, time: int, reading: Reading, seqNo: nat)
    ensures var w := After(Empty(kind, interval, capacity), xs);
      Offer(w, time, reading, seqNo).1 ==
        if reading.NotANumber? || reading.PlusInfinity? || reading.value > MAX_VALUE then Invalid
        else if seqNo <= w.lastSeq then Duplicate
        else if !w.hasBucket then Accepted
        else if time < w.lastTime then Rollback
        else if (w.kind.Tumbling? || w.kind.FixedInterval?) && w.interval <= 0 then Invalid
        else Accepted
  {
    var w0 := Empty(kind, interval, capacity);
    WindowIsBatch(kind, interval, capacity, xs);
    if reading.Number? {
      IngestKeepsBatch(After(w0, xs), History(w0, xs), Sample(time, reading.value, seqNo));
    }
  }

  lemma {:induction false} OrderedFront(h: seq<Sample>, a: nat)
    requires Ordered(h) && a <= |h|
    ensures Ordered(h[..a])
  {
    if a > 1 {
      OrderedFront(h[1..], a - 1);
      assert h[..a][1..] == h[1..][..a - 1];
    }
  }

  lemma {:induction false} BucketOrdered(h: seq<Sample>, interval: int, b: int)
    requires interval > 0 && Ordered(h)
    ensures Ordered(InBucket(h, interval, b))
    ensures forall x {:trigger x in InBucket(h, interval, b)} :: x in InBucket(h, interval, b) ==> x in h
  {
    if h != [] {
      var past, x := h[..|h| - 1], h[|h| - 1];
      OrderedFront(h, |h| - 1);
      BucketOrdered(past, interval, b);
      var held := InBucket(past, interval, b);
      if held != [] {
        var y := held[|held| - 1];
        assert y in held;
        var i :| 0 <= i < |past| && past[i] == y;
        OrderedPair(h, i, |h| - 1);
        OrderedGrows(held, x);
      }
    }
  }

  /** What a window holds is in order and ends with the newest sample; a sliding window with a
      positive interval holds nothing that old by the newest sample's time. */
  lemma HeldIsOrdered(w: Window, h: seq<Sample>)
    requires Holds(w, h)
    ensures Ordered(w.samples) && (w.samples == [] <==> h == [])
    ensures h != [] ==> w.samples[|w.samples| - 1] == h[|h| - 1]
    ensures w.kind.Sliding? && w.interval > 0 ==>
      forall i {:trigger w.samples[i]} :: 0 <= i < |w.samples| ==> w.samples[i].time > h[|h| - 1].time - w.interval
  {
    if h != [] {
      match w.kind
      case Instantaneous =>
      case Sliding =>
        if w.interval > 0 {
          SlidingHeld(h, w.interval, w.capacity);
        } else {
          LastOrdered(h, w.capacity);
        }
      case RollingCount => LastOrdered(h, w.capacity);
      case _ =>
        if w.interval > 0 {
          BucketOrdered(h, w.interval, Quotient(h[|h| - 1].time, w.interval));
        }
    }
  }

  lemma LastOrdered(h: seq<Sample>, n: nat)
    requires Ordered(h) && h != [] && n >= 1
    ensures LastOf(h, n) != [] && Ordered(LastOf(h, n)) && LastOf(h, n)[|LastOf(h, n)| - 1] == h[|h| - 1]
  {
    if |h| > n {
      OrderedTail(h, |h| - n);
    }
  }

  lemma SlidingHeld(h: seq<Sample>, interval: int, capacity: nat)
    requires Ordered(h) && h != [] && interval > 0 && capacity >= 1
    ensures var held := Batch(Sliding, interval, capacity, h);
      && Ordered(held) && held != [] && held[|held| - 1] == h[|h| - 1]
      && forall i {:trigger held[i]} :: 0 <= i < |held| ==> held[i].time > h[|h| - 1].time - interval
  {
    var last, cut := LastOf(h, capacity), h[|h| - 1].time - interval;
    LastOrdered(h, capacity);
    YoungerHeld(last, cut);
  }

  lemma {:induction false} YoungerHeld(h: seq<Sample>, cut: int)
    requires Ordered(h) && h != [] && h[|h| - 1].time > cut
    ensures var held := Younger(h, cut);
      && Ordered(held) && held != [] && held[|held| - 1] == h[|h| - 1]
      && forall i {:trigger held[i]} :: 0 <= i < |held| ==> held[i].time > cut
  {
    YoungerIsTail(h, cut);
    StaleStops(h, cut);
    OrderedTail(h, Stale(h, cut));
    forall i | Stale(h, cut) <= i < |h| ensures h[i].time > cut {
      if i > Stale(h, cut) {
        OrderedPair(h, Stale(h, cut), i);
      }
    }
  }

  lemma {:induction false} StaleStops(h: seq<Sample>, cut: int)
    requires h != [] && h[|h| - 1].time > cut
    ensures Stale(h, cut) < |h| && h[Stale(h, cut)].time > cut
  {
    if h[0].time <= cut {
      StaleStops(h[1..], cut);
    }
  }

  // ----- What is kept, sample by sample -----

  /** Two times fall into one bucket: their quotients, cut toward zero, agree. */
  predicate SameBucket(a: int, b: int, interval: int)
    requires interval > 0
  {
    (if a >= 0 then a / interval else -((-a) / interval)) == (if b >= 0 then b / interval else -((-b) / interval))
  }

  /** Sample `i` of a history is to be kept: by its number from the end, its age and its bucket. */
  predicate Kept(kind: WindowType, interval: int, capacity: nat, h: seq<Sample>, i: nat)
    requires i < |h|
  {
    var newest := h[|h| - 1].time;
    match kind
    case Instantaneous => i == |h| - 1
    case Sliding => |h| - i <= capacity && (interval > 0 ==> newest - h[i].time < interval)
    case RollingCount => |h| - i <= capacity
    case _ => interval > 0 ==> SameBucket(h[i].time, newest, interval)
  }

  lemma {:induction false} StaleExactly(h: seq<Sample>, cut: int, i: nat)
    requires Ordered(h) && i < |h|
    ensures Stale(h, cut) <= i <==> h[i].time > cut
  {
    if h[0].time > cut {
      if i > 0 {
        OrderedPair(h, 0, i);
      }
    } else if i > 0 {
      StaleExactly(h[1..], cut, i - 1);
    }
  }

  lemma {:induction false} BucketIsTail(h: seq<Sample>, interval: int, b: int) returns (k: nat)
    requires interval > 0 && Ordered(h)
    requires forall i {:trigger h[i]} :: 0 <= i < |h| ==> Quotient(h[i].time, interval) <= b
    ensures k <= |h| && InBucket(h, interval, b) == h[k..]
    ensures forall i {:trigger h[i]} :: 0 <= i < |h| ==> (k <= i <==> Quotient(h[i].time, interval) == b)
  {
    k := 0;
    if h != [] {
      var past, x := h[..|h| - 1], h[|h| - 1];
      assert forall i :: 0 <= i < |past| ==> past[i] == h[i];
      OrderedFront(h, |h| - 1);
      k := BucketIsTail(past, interval, b);
      if Quotient(x.time, interval) != b {
        forall i | 0 <= i < |past| ensures Quotient(past[i].time, interval) != b {
          OrderedPair(h, i, |h| - 1);
          QuotientMonotone(h[i].time, x.time, interval);
        }
        NoneInBucket(past, interval, b);
        k := |h|;
      } else {
        assert past[k..] + [x] == h[k..];
      }
    }
  }

  /** A window holds exactly the samples of its history that are to be kept, which are the last ones. */
  lemma HeldExactly(w: Window, h: seq<Sample>) returns (k: nat)
    requires Holds(w, h)
    ensures k <= |h| && w.samples == h[k..]
    ensures forall i | 0 <= i < |h| :: k <= i <==> Kept(w.kind, w.interval, w.capacity, h, i)
  {
    k := 0;
    if h != [] {
      match w.kind
      case Sliding => k := SlidingKept(w.interval, w.capacity, h);
      case Tumbling => k := BucketKept(w.kind, w.interval, w.capacity, h);
      case FixedInterval => k := BucketKept(w.kind, w.interval, w.capacity, h);
      case _ => k := CountKept(w.kind, w.interval, w.capacity, h);
    }
  }

  lemma CountKept(kind: WindowType, interval: int, capacity: nat, h: seq<Sample>) returns (k: nat)
    requires h != [] && capacity >= 1 && (kind.Instantaneous? || kind.RollingCount?)
    ensures k <= |h| && Batch(kind, interval, capacity, h) == h[k..]
    ensures forall i | 0 <= i < |h| :: k <= i <==> Kept(kind, interval, capacity, h, i)
  {
    k := if kind.Instantaneous? then |h| - 1 else Max(0, |h| - capacity);
    LastIsTail(h, capacity);
  }

  lemma LastIsTail<T>(h: seq<T>, n: nat)
    ensures LastOf(h, n) == h[Max(0, |h| - n)..]
  {}

  lemma SlidingKept(interval: int, capacity: nat, h: seq<Sample>) returns (k: nat)
    requires h != [] && Ordered(h)
    ensures k <= |h| && Batch(Sliding, interval, capacity, h) == h[k..]
    ensures forall i | 0 <= i < |h| :: k <= i <==> Kept(Sliding, interval, capacity, h, i)
  {
    k := Max(0, |h| - capacity);
    LastIsTail(h, capacity);
    if interval > 0 {
      var cut := h[|h| - 1].time - interval;
      k := Max(k, Stale(h, cut));
      SlidingBatchIsTail(h, interval, capacity, k);
      forall i | 0 <= i < |h| ensures k <= i <==> Kept(Sliding, interval, capacity, h, i) {
        StaleExactly(h, cut, i);
      }
    } else {
      assert forall i | 0 <= i < |h| :: k <= i <==> Kept(Sliding, interval, capacity, h, i);
    }
  }

  lemma BucketKept(kind: WindowType, interval: int, capacity: nat, h: seq<Sample>) returns (k: nat)
    requires h != [] && Ordered(h) && (kind.Tumbling? || kind.FixedInterval?)
    ensures k <= |h| && Batch(kind, interval, capacity, h) == h[k..]
    ensures forall i | 0 <= i < |h| :: k <= i <==> Kept(kind, interval, capacity, h, i)
  {
    var newest := h[|h| - 1].time;
    if interval > 0 {
      forall i | 0 <= i < |h| ensures Quotient(h[i].time, interval) <= Quotient(newest, interval) {
        if i < |h| - 1 {
          OrderedPair(h, i, |h| - 1);
        }
        QuotientMonotone(h[i].time, newest, interval);
      }
      k := BucketIsTail(h, interval, Quotient(newest, interval));
      forall i | 0 <= i < |h| ensures Quotient(h[i].time, interval) == Quotient(newest, interval)
        <==> Kept(kind, interval, capacity, h, i)
      {
        OneBucket(h[i].time, newest, interval);
      }
    } else {
      k := 0;
      assert h[0..] == h;
    }
  }

  lemma OneBucket(a: int, b: int, interval: int)
    requires interval > 0
    ensures Quotient(a, interval) == Quotient(b, interval) <==> SameBucket(a, b, interval)
  {
    QuotientIsDivision(a, interval);
    QuotientIsDivision(b, interval);
  }

  // ----- The largest value -----

  function Ten(k: nat): real {
    if k == 0 then 1.0 else Ten(k - 1) * 10.0
  }

  lemma {:induction false} TenTimes(j: nat, k: nat) returns (p: real, q: real)
    ensures p == Ten(j) && q == Ten(k) && Ten(j + k) == p * q
  {
    p, q := Ten(j), Ten(k);
    if j > 0 {
      var a, _ := TenTimes(j - 1, k);
      assert a * q * 10.0 == (a * 10.0) * q;
    }
  }

  /** The largest value that a window takes is the 300th power of ten. */
  lemma LargestIsTenTo300()
    ensures MAX_VALUE == Ten(300)
  {
    assert Ten(1) == 10.0 && Ten(2) == 100.0 && Ten(3) == 1000.0 && Ten(4) == 10000.0;
    var _, _ := TenTimes(2, 3);
    var _, _ := TenTimes(5, 5);
    var _, _ := TenTimes(10, 10);
    var _, _ := TenTimes(20, 20);
    var _, _ := TenTimes(40, 10);
    var _, _ := TenTimes(50, 50);
    var _, _ := TenTimes(100, 100);
    var _, _ := TenTimes(200, 100);
  }
}
