/** The estimator of the peak rate of a device. Rates are in sectors per microsecond with 16
    fractional bits, times in nanoseconds; the widths of the fields are modelled explicitly. */
module PeakRate {
  import opened Basics

  const RATE_ONE: int := 0x1_0000
  const MAX_RATE: int := 20 * RATE_ONE
  const MIN_SAMPLES: int := 32
  const MIN_INTERVAL: int := 300_000_000
  const REF_INTERVAL: int := 1_000_000_000
  const IDLE_INTERVAL: int := 100_000_000
  const MIN_TT: int := 2_000_000

  // ---------------------------------------------------------------- the filter

  /** The new estimate from the old one and a measured rate. */
  function Smoothed(peak: int, rate: int, divisor: int): (r: int)
    requires divisor != 0
  {
    var next := peak * (divisor - 1) / divisor + rate / divisor;
    if next < 1 then 1 else next
  }

  /** The weight of a measurement: how sequential the dispatches were, and for how long. */
  function Weight(sequential: int, samples: int, delta: int): (w: int)
    requires samples > 0 && delta >= 0
  {
    var byOrder := U32(9 * sequential) / samples;
    var byTime := U32(U64(byOrder * delta) / REF_INTERVAL);
    if byTime < 8 then byTime else 8
  }

  lemma U32Le(x: int)
    requires x >= 0
    ensures U32(x) <= x
  {
    DivBetween(x, TWO32);
  }

  /** The divisor runs from 2 to 10, and the first step of the weight does not reach 9. */
  lemma DivisorRange(sequential: int, samples: int, delta: int)
    requires 0 <= sequential < samples <= INT_MAX && delta >= 0
    ensures 0 <= U32(9 * sequential) / samples <= 8
    ensures 2 <= 10 - Weight(sequential, samples, delta) <= 10
  {
    U32Le(9 * sequential);
    QuotientAtMost(U32(9 * sequential), 8, samples);
  }

  /** No wrap-around in intervals of less than 500 million seconds. */
  lemma ShareInTime(share: int, delta: int)
    requires 0 <= share <= 8 && 0 <= delta <= 500_000_000_000_000_000
    ensures U32(U64(share * delta) / REF_INTERVAL) == share * delta / 1_000_000_000
  {
    MulLe(delta, share, 8);
    assert 0 <= share * delta <= 4_000_000_000_000_000_000;
    QuotientAtMost(share * delta, 4_000_000_000, 1_000_000_000);
  }

  /** So the weight is nine times the sequential share, rounded down, times the seconds of the interval,
      but at most 8. */
  lemma WeightMeans(sequential: int, samples: int, delta: int)
    requires 0 <= sequential < samples && 9 * sequential < TWO32 && 0 <= delta <= 500_000_000_000_000_000
    ensures var share := 9 * sequential / samples;
            0 <= share <= 8 && Weight(sequential, samples, delta) == Min(8, share * delta / 1_000_000_000)
  {
    QuotientAtMost(9 * sequential, 8, samples);
    ShareInTime(9 * sequential / samples, delta);
  }

  /** One step of the filter with a divisor from 2 to 10. */
  ghost predicate Between(peak: int, rate: int, next: int) {
    && next >= 1
    && next <= (if peak < rate then rate else peak)
    && next >= (if peak < rate then peak else rate) - 1
  }

  /** How far the estimate is from the measured rate. */
  function Gap(a: int, b: int): (r: nat) {
    if a < b then b - a else a - b
  }

  /** A product with a positive factor has the sign of the other. */
  lemma Sign(d: int, x: int, y: int)
    requires d > 0 && d * x <= d * y
    ensures x <= y
  {
    if x > y {
      MulLe(d, y + 1, x);
    }
  }

  lemma RoundedDown(d: int, s: int, m: int)
    requires d > 0 && d * s >= d * m - 2 * (d - 1)
    ensures s >= m - 1
  {
    if s < m - 1 {
      MulLe(d, s, m - 2);
    }
  }

  lemma BetweenEnds(d: int, low: int, high: int, s: int)
    requires d > 0 && d * low - 2 * (d - 1) <= d * s <= d * high
    ensures low - 1 <= s <= high
  {
    Sign(d, s, high);
    RoundedDown(d, s, low);
  }

  /** What rounding each part down leaves of the weighted mean. */
  lemma MeanBounds(a: int, b: int, d: int, p: int, q: int)
    requires 2 <= d <= 10
    requires d * p <= a * (d - 1) < d * p + d && d * q <= b < d * q + d
    ensures d * (p + q) == d * p + d * q
    ensures d * b + (d - 1) * (a - b) - 2 * (d - 1) <= d * (p + q) <= d * b + (d - 1) * (a - b)
    ensures d * a - (a - b) - 2 * (d - 1) <= d * (p + q) <= d * a - (a - b)
  {
    assert a * (d - 1) + b == d * b + (d - 1) * (a - b);
    assert a * (d - 1) + b == d * a - (a - b);
  }

  lemma SmoothedBy(peak: int, rate: int, d: int, p: int, q: int)
    requires peak >= 1 && rate >= 0 && 2 <= d <= 10
    requires d * p <= peak * (d - 1) < d * p + d && d * q <= rate < d * q + d
    ensures Between(peak, rate, if p + q < 1 then 1 else p + q)
  {
    MeanBounds(peak, rate, d, p, q);
    if peak < rate {
      MulLe(d - 1, peak - rate, 0);
      BetweenEnds(d, peak, rate, p + q);
    } else {
      MulLe(d - 1, 0, peak - rate);
      BetweenEnds(d, rate, peak, p + q);
    }
  }

  lemma ClosesGap(peak: int, rate: int, d: int, p: int, q: int)
    requires 2 <= d <= 10
    requires d * p <= peak * (d - 1) < d * p + d && d * q <= rate < d * q + d
    ensures d * Gap(p + q, rate) <= (d - 1) * Gap(peak, rate) + 2 * (d - 1)
  {
    MeanBounds(peak, rate, d, p, q);
    assert d * (p + q - rate) == d * (p + q) - d * rate;
    assert d * (rate - (p + q)) == d * rate - d * (p + q);
    if peak < rate {
      assert (d - 1) * (peak - rate) == -((d - 1) * (rate - peak));
      assert (d - 1) * (rate - peak) >= 0;
    } else {
      assert (d - 1) * (peak - rate) >= 0;
    }
  }

  /** A step of the filter lies between the old estimate and the measured rate, less one for
      rounding, and never below one; and it closes at least one part in `d` of the gap, but for
      the rounding. */
  lemma SmoothedBetween(peak: int, rate: int, d: int)
    requires peak >= 1 && rate >= 0 && 2 <= d <= 10
    ensures Between(peak, rate, Smoothed(peak, rate, d))
    ensures d * Gap(peak * (d - 1) / d + rate / d, rate) <= (d - 1) * Gap(peak, rate) + 2 * (d - 1)
  {
    DivBetween(peak * (d - 1), d);
    DivBetween(rate, d);
    SmoothedBy(peak, rate, d, peak * (d - 1) / d, rate / d);
    ClosesGap(peak, rate, d, peak * (d - 1) / d, rate / d);
  }

  /** One part in `d` of the way to the rate, at least, but for the rounding. */
  ghost predicate Closer(peak: int, rate: int, d: int, next: int) {
    2 <= d <= 10 && d * Gap(next, rate) <= (d - 1) * Gap(peak, rate) + 2 * d
  }

  /** Raising a result below one to one costs no more than the rounding. */
  lemma AtLeastOne(rate: int, d: int, p: int, bound: int)
    requires rate >= 0 && 2 <= d <= 10 && bound >= 0 && d * Gap(p, rate) <= bound + 2 * (d - 1)
    ensures d * Gap(if p < 1 then 1 else p, rate) <= bound + 2 * d
  {
    if p < 1 && rate > 0 {
      MulLe(d, Gap(1, rate), Gap(p, rate));
    }
  }

  lemma SmoothedCloser(peak: int, rate: int, d: int)
    requires peak >= 1 && rate >= 0 && 2 <= d <= 10
    ensures Closer(peak, rate, d, Smoothed(peak, rate, d))
  {
    SmoothedBetween(peak, rate, d);
    MulLe(d - 1, 0, Gap(peak, rate));
    AtLeastOne(rate, d, peak * (d - 1) / d + rate / d, (d - 1) * Gap(peak, rate));
  }

  // ---------------------------------------------------------------- the estimator

  /** The time over which the dispatches are spread, up to the last completion if that is later. The
      subtraction is on unsigned 64-bit numbers. */
  function Interval(delta: int, lastCompletion: int, firstDispatch: int): (r: int) {
    var d := U64(lastCompletion - firstDispatch);
    if delta < d then d else delta
  }

  function MeasuredRate(sectors: int, interval: int): (r: int)
    requires interval >= 1000
    ensures 0 <= r < TWO32
  {
    U32(U64(sectors * RATE_ONE) / (interval / 1000))
  }

  /** The rate is the sectors over the microseconds, with 16 fractional bits, rounded down. */
  lemma RateMeans(sectors: int, interval: int)
    requires 0 <= sectors < 0x1_0000_0000_0000 && interval >= 1000
    requires sectors * 0x1_0000 < TWO32 * (interval / 1000)
    ensures var r := MeasuredRate(sectors, interval);
            r * (interval / 1000) <= sectors * 0x1_0000 < (r + 1) * (interval / 1000)
  {
    var n := interval / 1000;
    DivBetween(sectors * RATE_ONE, n);
    QuotientAtMost(sectors * RATE_ONE, TWO32 - 1, n);
    assert (sectors * RATE_ONE / n + 1) * n == n * (sectors * RATE_ONE / n) + n;
  }

  /** The interval ends with the later of the last dispatch and the last completion. */
  lemma IntervalMeans(delta: int, lastCompletion: int, firstDispatch: int)
    requires 0 <= delta && 0 <= lastCompletion - firstDispatch < TWO64
    ensures Interval(delta, lastCompletion, firstDispatch) == Max(delta, lastCompletion - firstDispatch)
  {
  }

  /** Not sequential enough to lower the estimate, or unreasonably high. */
  predicate Discarded(sequential: int, samples: int, rate: int, peak: int) {
    (sequential < U32(S32(3 * samples) / 4) && rate <= peak) || rate > MAX_RATE
  }

  /** The estimate after an observation. */
  function NextPeak(peak: int, samples: int, sequential: int, sectors: int, delta: int, lastCompletion: int,
                    firstDispatch: int): (r: int)
    requires samples > 0 ==> 0 <= sequential < samples <= INT_MAX
  {
    if samples < MIN_SAMPLES || delta < MIN_INTERVAL then peak
    else
      var interval := Interval(delta, lastCompletion, firstDispatch);
      var rate := MeasuredRate(sectors, interval);
      if Discarded(sequential, samples, rate, peak) then peak
      else
        DivisorRange(sequential, samples, interval);
        Smoothed(peak, rate, 10 - Weight(sequential, samples, interval))
  }

  /** The rate that an observation measures, if it is long enough to measure any. */
  function Measured(samples: int, sectors: int, delta: int, lastCompletion: int, firstDispatch: int): (r: Option<int>)
  {
    if samples < MIN_SAMPLES || delta < MIN_INTERVAL then None
    else Some(MeasuredRate(sectors, Interval(delta, lastCompletion, firstDispatch)))
  }

  /** A step of the estimate: none, or one between the old value and this measured rate. */
  ghost predicate StepTo(peak: int, rate: Option<int>, next: int) {
    next == peak || (rate.Some? && 0 <= rate.value <= MAX_RATE && Between(peak, rate.value, next))
  }

  /** The estimate stays in range, and moves only between its old value and the rate measured. */
  lemma NextPeakOk(peak: int, samples: int, sequential: int, sectors: int, delta: int, lastCompletion: int,
                   firstDispatch: int)
    requires samples > 0 ==> 0 <= sequential < samples <= INT_MAX
    requires 1 <= peak <= MAX_RATE
    ensures var next := NextPeak(peak, samples, sequential, sectors, delta, lastCompletion, firstDispatch);
            && 1 <= next <= MAX_RATE
            && StepTo(peak, Measured(samples, sectors, delta, lastCompletion, firstDispatch), next)
  {
    if samples >= MIN_SAMPLES && delta >= MIN_INTERVAL {
      var interval := Interval(delta, lastCompletion, firstDispatch);
      var rate := MeasuredRate(sectors, interval);
      if !Discarded(sequential, samples, rate, peak) {
        DivisorRange(sequential, samples, interval);
        SmoothedBetween(peak, rate, 10 - Weight(sequential, samples, interval));
      }
    }
  }

  lemma DiscardedIff(sequential: int, samples: int, rate: int, peak: int)
    requires 0 <= samples <= INT_MAX / 3
    ensures Discarded(sequential, samples, rate, peak) <==>
              rate > 20 * 0x1_0000 || (rate <= peak && sequential < 3 * samples / 4)
  {
  }

  /** A step of the estimate after an observation long enough. */
  lemma NextPeakAs(peak: int, samples: int, sequential: int, sectors: int, delta: int, lastCompletion: int,
                   firstDispatch: int, interval: int, rate: int)
    requires 0 <= sequential < samples <= INT_MAX && samples >= MIN_SAMPLES && delta >= MIN_INTERVAL
    requires interval == Interval(delta, lastCompletion, firstDispatch) && rate == MeasuredRate(sectors, interval)
    ensures 2 <= 10 - Weight(sequential, samples, interval) <= 10
    ensures NextPeak(peak, samples, sequential, sectors, delta, lastCompletion, firstDispatch)
         == if Discarded(sequential, samples, rate, peak) then peak
            else Smoothed(peak, rate, 10 - Weight(sequential, samples, interval))
  {
    DivisorRange(sequential, samples, interval);
  }

  /** When it moves, and when not: a measured rate of at most 20 sectors per microsecond counts if it is
      above the estimate or three in four samples were sequential, and then the estimate comes closer
      to it. */
  lemma NextPeakIff(peak: int, samples: int, sequential: int, sectors: int, delta: int, lastCompletion: int,
                    firstDispatch: int) returns (d: int)
    requires samples > 0 ==> 0 <= sequential < samples <= INT_MAX / 3
    requires 1 <= peak <= MAX_RATE
    ensures var next := NextPeak(peak, samples, sequential, sectors, delta, lastCompletion, firstDispatch);
            if samples < 32 || delta < 300_000_000 then next == peak
            else
              var rate := MeasuredRate(sectors, Interval(delta, lastCompletion, firstDispatch));
              if rate <= 20 * 0x1_0000 && (rate > peak || sequential >= 3 * samples / 4)
              then Closer(peak, rate, d, next) else next == peak
  {
    d := 0;
    if samples >= MIN_SAMPLES && delta >= MIN_INTERVAL {
      var interval := Interval(delta, lastCompletion, firstDispatch);
      var rate := MeasuredRate(sectors, interval);
      NextPeakAs(peak, samples, sequential, sectors, delta, lastCompletion, firstDispatch, interval, rate);
      DiscardedIff(sequential, samples, rate, peak);
      d := 10 - Weight(sequential, samples, interval);
      SmoothedCloser(peak, rate, d);
    }
  }

  datatype Event =
    | Dispatch(sectors: int, seeky: bool, inDriver: int, now: int, later: int)
    | Completion(now: int, later: int)

  /** The sizes of requests fit their field. */
  predicate EventOk(e: Event) {
    e.Dispatch? ==> 0 <= e.sectors < TWO32
  }

  /** The fields of the estimator, and what each event makes of them. */
  datatype Fields = Fields(samples: int, sequential: int, totSectors: int, lastMaxSize: int, delta: int,
                           firstDispatch: int, lastDispatch: int, lastCompletion: int, peak: int)
  {
    /** Fewer sequential samples than samples, an estimate in range, and all in the width of their
        fields. */
    predicate Ok() {
      && -INT_MAX - 1 <= samples <= INT_MAX && 0 <= sequential < TWO32
      && (samples > 0 ==> sequential < samples)
      && 1 <= peak <= MAX_RATE
      && 0 <= delta < TWO64 && 0 <= totSectors < TWO64 && 0 <= lastMaxSize < TWO32
    }

    /** The observation begins anew, with a request if one is dispatched now. */
    function Restarted(sectors: Option<int>, now: int): (r: Fields) {
      if sectors.None? then this.(samples := 0)
      else this.(samples := 1, sequential := 0, totSectors := sectors.value, lastMaxSize := sectors.value,
                 firstDispatch := now, lastDispatch := now)
    }

    /** The rate that the observation measures, if any. */
    function Rate(): (r: Option<int>) {
      Measured(samples, totSectors, delta, lastCompletion, firstDispatch)
    }

    /** The observation is closed. */
    function Closed(sectors: Option<int>, now: int): (r: Fields)
      requires Ok()
    {
      this.(delta := if Rate().Some? then Interval(delta, lastCompletion, firstDispatch) else delta,
            peak := NextPeak(peak, samples, sequential, totSectors, delta, lastCompletion, firstDispatch))
      .Restarted(sectors, now)
    }

    /** One more sample. */
    function Sampled(sectors: int, inSequence: bool, now: int): (r: Fields) {
      var n := S32(samples + 1);
      this.(samples := n, sequential := if inSequence then U32(sequential + 1) else sequential,
            totSectors := U64(totSectors + sectors),
            lastMaxSize := if n % 32 != 0 && sectors < lastMaxSize then lastMaxSize else sectors,
            delta := U64(now - firstDispatch))
    }

    /** The device had nothing to do for long. */
    predicate Idle(inDriver: int, now: int) {
      U64(now - lastDispatch) > IDLE_INTERVAL && inDriver == 0
    }

    predicate InSequence(seeky: bool, inDriver: int, now: int) {
      !seeky && (inDriver > 0 || U64(now - lastCompletion) < MIN_TT)
    }

    /** A completion is late when the largest request would have been served at a very low rate. */
    predicate Late(now: int) {
      var delay := U32(U64(now - lastCompletion) / 1000);
      delay > MIN_TT / 1000 && U32(lastMaxSize * RATE_ONE) / delay < 64
    }

    /** The observation that an event closes: none, the one so far, or the one with this dispatch. */
    function Closes(e: Event): (r: Option<Fields>) {
      match e
      case Dispatch(sectors, seeky, inDriver, now, _) =>
        if samples == 0 then None
        else if Idle(inDriver, now) then Some(this)
        else
          var f := Sampled(sectors, InSequence(seeky, inDriver, now), now);
          if f.delta < REF_INTERVAL then None else Some(f)
      case Completion(now, _) => if Late(now) then Some(this) else None
    }

    /** The rate that an event measures. */
    function Measures(e: Event): (r: Option<int>) {
      var f := Closes(e);
      if f.None? then None else f.value.Rate()
    }

    /** The observation after a dispatch. */
    function Dispatched(sectors: int, seeky: bool, inDriver: int, now: int, later: int): (r: Fields)
      requires Ok() && 0 <= sectors < TWO32
    {
      if samples == 0 then Restarted(Some(sectors), later)
      else if Idle(inDriver, now) then Closed(Some(sectors), later)
      else
        SampledOk(this, sectors, InSequence(seeky, inDriver, now), now);
        var f := Sampled(sectors, InSequence(seeky, inDriver, now), now);
        if f.delta < REF_INTERVAL then f else f.Closed(Some(sectors), later)
    }

    /** The fields after an event. */
    function After(e: Event): (r: Fields)
      requires Ok() && EventOk(e)
    {
      match e
      case Dispatch(sectors, seeky, inDriver, now, later) =>
        Dispatched(sectors, seeky, inDriver, now, later).(lastDispatch := now)
      case Completion(now, later) =>
        (if Late(now) then Closed(None, later) else this).(lastCompletion := now)
    }
  }

  /** Which events close an observation: a dispatch after more than 0.1 idle seconds or at least a second
      after the first one, and a completion after more than two milliseconds in which the largest request
      came at less than a thousandth of a sector per microsecond. */
  lemma ClosesIff(f: Fields, e: Event)
    ensures f.Closes(e).Some? <==>
              match e
              case Dispatch(_, _, inDriver, now, _) =>
                f.samples != 0 && ((inDriver == 0 && U64(now - f.lastDispatch) > 100_000_000)
                                   || U64(now - f.firstDispatch) >= 1_000_000_000)
              case Completion(now, _) =>
                var us := U32(U64(now - f.lastCompletion) / 1000);
                us > 2000 && U32(f.lastMaxSize * 0x1_0000) / us < 64
  {
  }

  /** A dispatch is sequential if its queue is not seeky and the device had work, or had it less than two
      milliseconds ago; and the first dispatch of an observation does not count as sequential. */
  lemma SequentialIff(f: Fields, seeky: bool, inDriver: int, now: int, sectors: int)
    ensures f.InSequence(seeky, inDriver, now) <==>
              !seeky && (inDriver > 0 || U64(now - f.lastCompletion) < 2_000_000)
    ensures var r := f.Restarted(Some(sectors), now);
            r.samples == 1 && r.sequential == 0 && r.totSectors == sectors && r.firstDispatch == now
    ensures f.Restarted(None, now).samples == 0
  {
  }

  /** What a further sample adds. */
  lemma SampledMeans(f: Fields, sectors: int, inSequence: bool, now: int)
    requires f.Ok() && 0 < f.samples < INT_MAX && f.totSectors + sectors < TWO64 && 0 <= sectors
    ensures var r := f.Sampled(sectors, inSequence, now);
            && r.samples == f.samples + 1 && r.sequential == f.sequential + (if inSequence then 1 else 0)
            && r.totSectors == f.totSectors + sectors && r.delta == U64(now - f.firstDispatch)
            && (r.samples % 32 != 0 ==> r.lastMaxSize == Max(f.lastMaxSize, sectors))
            && (r.samples % 32 == 0 ==> r.lastMaxSize == sectors)
  {
  }

  lemma SampledOk(f: Fields, sectors: int, inSequence: bool, now: int)
    requires f.Ok() && f.samples != 0 && 0 <= sectors < TWO32
    ensures f.Sampled(sectors, inSequence, now).Ok()
  {
  }

  lemma ClosedOk(f: Fields, sectors: Option<int>, now: int)
    requires f.Ok() && (sectors.Some? ==> 0 <= sectors.value < TWO32)
    ensures f.Closed(sectors, now).Ok() && StepTo(f.peak, f.Rate(), f.Closed(sectors, now).peak)
  {
    NextPeakOk(f.peak, f.samples, f.sequential, f.totSectors, f.delta, f.lastCompletion, f.firstDispatch);
  }

  /** Every event keeps the fields in order, and moves the estimate only between its old value and the
      rate that this event measures. */
  lemma AfterOk(f: Fields, e: Event)
    requires f.Ok() && EventOk(e)
    ensures f.After(e).Ok() && StepTo(f.peak, f.Measures(e), f.After(e).peak)
  {
    match e {
      case Dispatch(sectors, seeky, inDriver, now, later) =>
        if f.samples != 0 {
          if f.Idle(inDriver, now) {
            ClosedOk(f, Some(sectors), later);
          } else {
            var inSequence := f.InSequence(seeky, inDriver, now);
            SampledOk(f, sectors, inSequence, now);
            ClosedOk(f.Sampled(sectors, inSequence, now), Some(sectors), later);
          }
        }
      case Completion(now, later) =>
        ClosedOk(f, None, later);
    }
  }

  class Estimator {
    var samples: int
    var sequential: int
    var totSectors: int
    var lastMaxSize: int
    var delta: int
    var firstDispatch: int
    var lastDispatch: int
    var lastCompletion: int
    var peak: int

    ghost function State(): (f: Fields)
      reads this
    {
      Fields(samples, sequential, totSectors, lastMaxSize, delta, firstDispatch, lastDispatch, lastCompletion, peak)
    }

    ghost predicate Valid()
      reads this
    {
      State().Ok()
    }

    /** The start: two thirds of a reference rate, which depends on whether the device rotates. */
    constructor (rotational: bool)
      ensures Valid() && samples == 0 && peak == if rotational then 9333 else 22000
    {
      samples, sequential, totSectors, lastMaxSize, delta := 0, 0, 0, 0, 0;
      firstDispatch, lastDispatch, lastCompletion := 0, 0, 0;
      peak := (if rotational then 14000 else 33000) * 2 / 3;
    }

    /** bfq_reset_rate_computation: `sectors` is the size of the request dispatched now, if any. */
    method Reset(sectors: Option<int>, now: int)
      modifies this
      ensures State() == old(State()).Restarted(sectors, now)
    {
      if sectors.Some? {
        firstDispatch, lastDispatch := now, now;
        samples, sequential := 1, 0;
        totSectors, lastMaxSize := sectors.value, sectors.value;
      } else {
        samples := 0;
      }
    }

    /** bfq_update_rate_reset: no division by zero and no overflow of 32 bits on the way. */
    method UpdateRateReset(sectors: Option<int>, now: int)
      requires Valid() && (sectors.Some? ==> 0 <= sectors.value < TWO32)
      modifies this
      ensures Valid() && State() == old(State()).Closed(sectors, now)
      ensures StepTo(old(peak), old(State()).Rate(), peak)
    {
      ClosedOk(State(), sectors, now);
      if samples >= MIN_SAMPLES && delta >= MIN_INTERVAL {
        delta := Interval(delta, lastCompletion, firstDispatch);
        var rate := MeasuredRate(totSectors, delta);
        if !Discarded(sequential, samples, rate, peak) {
          DivisorRange(sequential, samples, delta);
          var divisor := 10 - Weight(sequential, samples, delta);
          MulLe(peak, divisor - 1, 9);
          assert peak * (divisor - 1) < TWO32;
          peak := peak * (divisor - 1);
          peak := peak / divisor;
          rate := rate / divisor;
          peak := peak + rate;
          peak := if peak < 1 then 1 else peak;
        }
      }
      Reset(sectors, now);
    }

    /** One more sample in the observation. */
    method Sample(sectors: int, inSequence: bool, now: int)
      modifies this
      ensures State() == old(State()).Sampled(sectors, inSequence, now)
    {
      samples := S32(samples + 1);
      if inSequence {
        sequential := U32(sequential + 1);
      }
      totSectors := U64(totSectors + sectors);
      if samples % 32 != 0 {
        lastMaxSize := if sectors < lastMaxSize then lastMaxSize else sectors;
      } else {
        lastMaxSize := sectors;
      }
      delta := U64(now - firstDispatch);
    }

    /** bfq_update_peak_rate, on every dispatch; `inDriver` requests are with the device. */
    method UpdatePeakRate(sectors: int, seeky: bool, inDriver: int, now: int, later: int)
      requires Valid() && 0 <= sectors < TWO32
      modifies this
      ensures var e := Dispatch(sectors, seeky, inDriver, now, later);
              && Valid() && State() == old(State()).After(e)
              && StepTo(old(peak), old(State()).Measures(e), peak)
    {
      AfterOk(State(), Dispatch(sectors, seeky, inDriver, now, later));
      if samples == 0 {
        Reset(Some(sectors), later);
      } else if U64(now - lastDispatch) > IDLE_INTERVAL && inDriver == 0 {
        UpdateRateReset(Some(sectors), later);
      } else {
        var inSequence := (inDriver > 0 || U64(now - lastCompletion) < MIN_TT) && !seeky;
        SampledOk(State(), sectors, inSequence, now);
        Sample(sectors, inSequence, now);
        if delta >= REF_INTERVAL {
          UpdateRateReset(Some(sectors), later);
        }
      }
      lastDispatch := now;
    }

    /** The part of bfq_completed_request that closes an observation after a late completion. */
    method Completed(now: int, later: int)
      requires Valid()
      modifies this
      ensures var e := Completion(now, later);
              && Valid() && State() == old(State()).After(e)
              && StepTo(old(peak), old(State()).Measures(e), peak)
    {
      AfterOk(State(), Completion(now, later));
      var delay := U32(U64(now - lastCompletion) / 1000);
      if delay > MIN_TT / 1000 && U32(lastMaxSize * RATE_ONE) / delay < 64 {
        UpdateRateReset(None, later);
      }
      lastCompletion := now;
    }

    /** Any run: the estimate never leaves its range, and each of its steps lies between the old value
        and the rate measured in that step. `trace` holds the fields before and after each event. */
    method Run(events: seq<Event>) returns (peaks: seq<int>, ghost trace: seq<Fields>)
      requires Valid() && forall i :: 0 <= i < |events| ==> EventOk(events[i])
      modifies this
      ensures Valid() && |trace| == |peaks| == |events| + 1 && trace[0] == old(State()) && trace[|events|] == State()
      ensures forall i :: 0 <= i <= |events| ==> trace[i].Ok() && trace[i].peak == peaks[i]
      ensures forall i :: 0 <= i < |events| ==> trace[i + 1] == trace[i].After(events[i])
      ensures forall i :: 0 <= i < |events| ==> StepTo(peaks[i], trace[i].Measures(events[i]), peaks[i + 1])
    {
      peaks, trace := [peak], [State()];
      var i := 0;
      while i < |events|
        invariant 0 <= i <= |events| && Valid() && |trace| == |peaks| == i + 1
        invariant trace[0] == old(State()) && trace[i] == State()
        invariant forall j :: 0 <= j <= i ==> trace[j].Ok() && trace[j].peak == peaks[j]
        invariant forall j :: 0 <= j < i ==> trace[j + 1] == trace[j].After(events[j])
        invariant forall j :: 0 <= j < i ==> StepTo(peaks[j], trace[j].Measures(events[j]), peaks[j + 1])
      {
        match events[i] {
          case Dispatch(sectors, seeky, inDriver, now, later) => UpdatePeakRate(sectors, seeky, inDriver, now, later);
          case Completion(now, later) => Completed(now, later);
        }
        peaks, trace := peaks + [peak], trace + [State()];
        i := i + 1;
      }
    }
  }
}
