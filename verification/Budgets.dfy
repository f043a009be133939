/** Error budgets: a finite allowance of violations over a window of time. */
module Budgets {
  import opened Types

  datatype BudgetState = Healthy | NearBudgetLimit | Exhausted

  datatype BurnRate = NormalBurn | ElevatedBurn | CriticalBurn

  datatype Budget = Budget(total: I64, consumed: I64, window: I64, start: I64) {
    function Remaining(): int {
      if total - consumed < 0 then 0 else total - consumed
    }

    function Overrun(): int {
      if consumed - total < 0 then 0 else consumed - total
    }

    function Consume(): Budget {
      if consumed < MAX_I64 then this.(consumed := consumed + 1) else this
    }

    /** Charges `amount` at once; an amount that does not fit is not charged at all. */
    function ConsumeCount(amount: I64): Budget {
      if amount > 0 && consumed <= MAX_I64 - amount then this.(consumed := consumed + amount) else this
    }

    function State(): BudgetState {
      if total == 0 || total - consumed <= 0 then Exhausted
      else if (total - consumed) * 10 <= total then NearBudgetLimit
      else Healthy
    }

    function FractionElapsed(now: int): real {
      if window <= 0 then 1.0
      else
        var elapsed := if now - start < 0 then 0 else now - start;
        if elapsed > window then 1.0 else elapsed as real / window as real
    }

    function Burn(now: int): real {
      var fraction := FractionElapsed(now);
      if total <= 0 || fraction <= 0.0 then 0.0
      else consumed as real / total as real / fraction
    }

    function ClassifyBurn(now: int): BurnRate {
      if Burn(now) > 2.0 then CriticalBurn
      else if Burn(now) > 1.0 then ElevatedBurn
      else NormalBurn
    }

    predicate WindowRolled(now: int) {
      window > 0 && now - start >= window
    }

    function ResetWindow(now: I64): Budget {
      this.(consumed := 0, start := now)
    }
  }

  function NewBudget(total: I64, window: I64): Budget {
    Budget(total, 0, if window < 0 then 0 else window, 0)
  }

  /** The budget object, whose count and window start change in place. */
  class ErrorBudget {
    const total: I64
    const window: I64
    var consumed: I64
    var start: I64

    function Value(): Budget
      reads this
    {
      Budget(total, consumed, window, start)
    }

    constructor (total: I64, window: I64)
      ensures Value() == NewBudget(total, window)
    {
      this.total := total;
      this.window := if window < 0 then 0 else window;
      consumed, start := 0, 0;
    }

    constructor Holding(b: Budget)
      ensures Value() == b
    {
      total, window, consumed, start := b.total, b.window, b.consumed, b.start;
    }

    method Consume() returns (state: BudgetState)
      modifies this
      ensures Value() == old(Value()).Consume() && state == Value().State()
    {
      if consumed < MAX_I64 {
        consumed := consumed + 1;
      }
      state := Value().State();
    }

    method ConsumeCount(amount: I64) returns (state: BudgetState)
      modifies this
      ensures Value() == old(Value()).ConsumeCount(amount) && state == Value().State()
    {
      if amount > 0 && consumed <= MAX_I64 - amount {
        consumed := consumed + amount;
      }
      state := Value().State();
    }

    method ResetWindow(now: I64)
      modifies this
      ensures Value() == old(Value()).ResetWindow(now)
    {
      consumed := 0;
      start := now;
    }

    method SetWindowStart(now: I64)
      modifies this
      ensures Value() == old(Value()).(start := now)
    {
      start := now;
    }
  }

  /** Nothing is lost: what remains and what was consumed make up the total and the overrun, and
      only one of remaining and overrun is not zero. */
  lemma Accounting(b: Budget)
    ensures b.Remaining() + b.consumed == b.total + b.Overrun()
    ensures b.Remaining() == 0 || b.Overrun() == 0
  {}

  /** A budget is exhausted exactly when nothing remains of it. */
  lemma ExhaustedIsNoneLeft(b: Budget)
    requires b.consumed >= 0
    ensures b.State() == Exhausted <==> b.Remaining() == 0
  {}

  /** By the share that is consumed: less than nine tenths is healthy, and all of it is exhausted. */
  lemma StateExactly(b: Budget)
    requires b.consumed >= 0
    ensures b.State() == Healthy <==> 10 * b.consumed < 9 * b.total
    ensures b.State() == NearBudgetLimit <==> 9 * b.total <= 10 * b.consumed < 10 * b.total
    ensures b.State() == Exhausted <==> b.total <= b.consumed
  {}

  // ----- Many events -----

  /** A budget after `n` events. */
  function Charged(b: Budget, n: nat): Budget {
    if n == 0 then b else Charged(b, n - 1).Consume()
  }

  /** Events are counted exactly, until the count reaches the largest machine integer. */
  lemma {:induction false} ChargedCounts(b: Budget, n: nat)
    requires b.consumed >= 0
    ensures Charged(b, n) == b.(consumed := if b.consumed + n <= MAX_I64 then b.consumed + n else MAX_I64)
  {
    if n > 0 {
      ChargedCounts(b, n - 1);
    }
  }

  /** Charging a saved count in one go restores what charging event by event had built up. */
  lemma RestoredCount(b: Budget, n: I64)
    requires b.consumed == 0 && n >= 0
    ensures b.ConsumeCount(n) == Charged(b, n)
  {
    ChargedCounts(b, n);
  }

  /** The elapsed part of the window, out of its length; all of one where there is no window. */
  function Elapsed(b: Budget, now: int): nat {
    if b.window <= 0 then 1
    else if now < b.start then 0
    else if now - b.start > b.window then b.window
    else now - b.start
  }

  function Length(b: Budget): (n: nat)
    ensures n > 0
  {
    if b.window <= 0 then 1 else b.window
  }

  lemma ElapsedFraction(b: Budget, now: int)
    ensures b.FractionElapsed(now) == Elapsed(b, now) as real / Length(b) as real
    ensures b.FractionElapsed(now) <= 0.0 <==> Elapsed(b, now) == 0
  {
    var e, w := Elapsed(b, now) as real, Length(b) as real;
    if e > 0.0 {
      assert e / w > 0.0;
    }
  }

  /** With time and allowance in exact proportion the budget burns at rate one: at every time the burn
      rate is above `r` exactly when the consumed share of the total is more than `r` times the elapsed
      share of the window; with no total, or nothing elapsed, it is zero. */
  lemma BurnIsProportion(b: Budget, now: int, r: int)
    ensures b.Burn(now) > r as real <==>
      if b.total <= 0 || Elapsed(b, now) == 0 then r < 0
      else b.consumed * Length(b) > r * (b.total * Elapsed(b, now))
  {
    ElapsedFraction(b, now);
    if b.total > 0 && Elapsed(b, now) > 0 {
      var c, t, e, w := b.consumed as real, b.total as real, Elapsed(b, now) as real, Length(b) as real;
      RatioAbove(c, t, e, w, r as real);
      WholeProducts(b.consumed, Length(b), r, b.total, Elapsed(b, now));
    }
  }

  /** The consumed share of the total is `r` times the elapsed share of the window, or less. */
  predicate BurnsWithin(b: Budget, now: int, r: int) {
    b.total <= 0 || Elapsed(b, now) == 0 || b.consumed * Length(b) <= r * (b.total * Elapsed(b, now))
  }

  /** A budget burns normally up to rate one and critically above rate two. */
  lemma BurnClassExactly(b: Budget, now: int)
    ensures b.ClassifyBurn(now) == NormalBurn <==> BurnsWithin(b, now, 1) && BurnsWithin(b, now, 2)
    ensures b.ClassifyBurn(now) == CriticalBurn <==> !BurnsWithin(b, now, 2)
  {
    BurnIsProportion(b, now, 1);
    BurnIsProportion(b, now, 2);
  }

  lemma WholeProducts(c: int, w: int, r: int, t: int, e: int)
    ensures (c as real) * (w as real) > (r as real) * ((t as real) * (e as real)) <==> c * w > r * (t * e)
  {
    assert (c * w) as real == (c as real) * (w as real);
    assert (t * e) as real == (t as real) * (e as real);
    assert (r * (t * e)) as real == (r as real) * ((t * e) as real);
  }

  lemma RatioAbove(c: real, t: real, e: real, w: real, r: real)
    requires t > 0.0 && e > 0.0 && w > 0.0 && e / w > 0.0
    ensures c / t / (e / w) > r <==> c * w > r * (t * e)
  {
    var f, q := e / w, c / t / (e / w);
    assert f * w == e;
    assert (q * f) * t == c;
    assert c * w == q * (t * e);
    ScaledOrder(q, r, t * e);
  }

  lemma ScaledOrder(q: real, r: real, m: real)
    requires m > 0.0
    ensures q > r <==> q * m > r * m
  {
    if q > r {
      assert (q - r) * m > 0.0;
    } else {
      assert (r - q) * m >= 0.0;
    }
  }
}
