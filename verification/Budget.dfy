/** The budgets of the queues: how they are set, spent and charged, and that no queue ever spends
    more than its budget. Computations that the source does in 32 bits are done so here. */
module Budget {
  import opened Basics

  const DEFAULT_MAX_BUDGET: int := 16 * 1024
  const ASYNC_FACTOR: int := 3
  const MIN_BUDGETS: int := 194
  /** The largest budget that can be multiplied by four. */
  const LIMIT: int := INT_MAX / 4

  /** What the maxima of a run stay below: the results hold for each of these. */
  type Ceiling = c: int | LIMIT <= c <= INT_MAX witness LIMIT

  type Id = int

  datatype Reason = TooIdle | BudgetTimeout | BudgetExhausted | NoMoreRequests | Preempted

  /** A queue: its budget and service, the size of its next request, the number of its requests, and
      whether it is synchronous, weight-raised, busy, and waiting for a request after it ran empty. */
  datatype Queue = Queue(budget: int, service: int, maxBudget: int, next: Option<int>, queued: nat,
                         sync: bool, raised: bool, busy: bool, waiting: bool)

  /** Extremes taken, and comparisons made, as unsigned long. */
  function UMax(a: int, b: int): (m: int) {
    Max(U64(a), U64(b))
  }

  function UMin(a: int, b: int): (m: int) {
    Min(U64(a), U64(b))
  }

  /** bfq_serv_to_charge. */
  function Charge(q: Queue, sectors: int, asymmetric: bool): (c: int) {
    if q.sync || q.raised || asymmetric then sectors else sectors * ASYNC_FACTOR
  }

  function BudgetLeft(q: Queue): (left: int) {
    S32(q.budget - q.service)
  }

  /** The test before a request is dispatched, as the source makes it: unsigned. */
  predicate Fits(q: Queue, asymmetric: bool) {
    q.next.Some? && U64(Charge(q, q.next.value, asymmetric)) <= U64(BudgetLeft(q))
  }

  // ---------------------------------------------------------------- what always holds

  predicate SizeOk(sectors: int) {
    0 <= sectors && sectors * ASYNC_FACTOR <= LIMIT
  }

  predicate Int32(x: int) {
    -INT_MAX - 1 <= x <= INT_MAX
  }

  /** No overdraft. */
  ghost predicate QueueOk(q: Queue, top: Ceiling) {
    && 0 <= q.service <= q.budget <= top && 0 <= q.maxBudget <= top
    && (q.next.Some? ==> SizeOk(q.next.value)) && (q.next.Some? <==> q.queued > 0)
    && (q.next.Some? ==> q.busy)
  }

  /** What a request costs: three times its size if it is asynchronous, not weight-raised, and all queues
      have equal weights. */
  ghost function Cost(q: Queue, sectors: int, asymmetric: bool): (c: int) {
    if !q.sync && !q.raised && !asymmetric then 3 * sectors else sectors
  }

  lemma ChargeIsCost(q: Queue, sectors: int, asymmetric: bool)
    ensures Charge(q, sectors, asymmetric) == Cost(q, sectors, asymmetric)
  {
  }

  lemma ChargeOk(q: Queue, sectors: int, asymmetric: bool)
    requires SizeOk(sectors)
    ensures 0 <= Charge(q, sectors, asymmetric) <= LIMIT
  {
  }

  /** The unsigned test never sees a negative number, so it is the test on integers. */
  lemma FitsMeans(q: Queue, asymmetric: bool, top: Ceiling)
    requires QueueOk(q, top) && q.next.Some?
    ensures BudgetLeft(q) == q.budget - q.service >= 0
    ensures Fits(q, asymmetric) <==> q.service + Charge(q, q.next.value, asymmetric) <= q.budget
  {
    ChargeOk(q, q.next.value, asymmetric);
  }

  // ---------------------------------------------------------------- setting the budget

  /** The lowest budget, a part of the current highest one. */
  function MinBudget(rounds: int, maxBudget: int): (b: int) {
    if rounds < MIN_BUDGETS then DEFAULT_MAX_BUDGET / 32 else maxBudget / 32
  }

  /** bfq_bfqq_update_budg_for_activation, on the arrival of a request to an idle queue: the rest of
      the old budget if the request came in time, otherwise a new one. */
  function Activated(q: Queue, inTime: bool, asymmetric: bool): (r: Queue)
    requires q.next.Some?
  {
    if q.waiting && inTime && BudgetLeft(q) > 0 then
      q.(budget := S32(UMin(BudgetLeft(q), q.maxBudget)), service := 0)
    else
      q.(budget := S32(UMax(q.maxBudget, Charge(q, q.next.value, asymmetric))), service := 0, waiting := false)
  }

  /** bfq_updated_next_req: the budget of a queue out of service follows its next request. */
  function Followed(q: Queue, asymmetric: bool): (r: Queue) {
    if q.next.None? then q
    else q.(budget := S32(Max(UMax(q.maxBudget, Charge(q, q.next.value, asymmetric)), U64(q.service))))
  }

  /** bfq_bfqq_charge_time: the service that a fast queue would have had in `time` out of `timeout`
      milliseconds. */
  function ChargedTime(q: Queue, maxBudget: int, time: nat, timeout: nat): (r: Queue)
    requires timeout > 0
  {
    var byTime := S32(maxBudget * Min(time, timeout) / timeout);
    var total := Max(byTime, q.service);
    q.(budget := Max(q.budget, total), service := S32(q.service + Max(0, S32(total - q.service))))
  }

  /** The new upper bound of the budget of a synchronous queue that is not weight-raised. */
  function Adapted(q: Queue, reason: Reason, maxBudget: int, minBudget: int, outstanding: bool): (b: int) {
    match reason
    case TooIdle =>
      if outstanding then Min(S32(q.maxBudget * 2), maxBudget)
      else if q.maxBudget > S32(5 * minBudget) then S32(q.maxBudget - S32(4 * minBudget)) else minBudget
    case BudgetTimeout => Min(S32(q.maxBudget * 2), maxBudget)
    case BudgetExhausted => Min(S32(q.maxBudget * 4), maxBudget)
    case NoMoreRequests => Max(q.service, minBudget)
    case Preempted => q.maxBudget
  }

  /** The upper bound after an expiration. */
  function NewMaxBudget(q: Queue, reason: Reason, maxBudget: int, rounds: int, userMax: bool,
                        outstanding: bool): (r: int)
  {
    var minBudget := MinBudget(rounds, maxBudget);
    var b := if q.sync && !q.raised then Adapted(q, reason, maxBudget, minBudget, outstanding)
             else if !q.sync then maxBudget
             else S32(2 * minBudget);
    if rounds >= MIN_BUDGETS && !userMax then Min(b, maxBudget) else b
  }

  /** __bfq_bfqq_recalc_budget. */
  function Recalculated(q: Queue, reason: Reason, maxBudget: int, rounds: int, userMax: bool, outstanding: bool,
                        asymmetric: bool): (r: Queue)
  {
    if q.sync && !q.raised && reason == Preempted then q
    else
      var b := NewMaxBudget(q, reason, maxBudget, rounds, userMax, outstanding);
      if q.next.None? then q.(maxBudget := b)
      else q.(maxBudget := b, budget := S32(UMax(b, Charge(q, q.next.value, asymmetric))))
  }

  /** Doubling and quadrupling in 32 bits. */
  lemma DoubledSign(b: int)
    requires Int32(b)
    ensures S32(b * 2) >= 0 <==> b % 0x8000_0000 < 0x4000_0000
  {
    var m, k := b % 0x8000_0000, b / 0x8000_0000;
    assert b * 2 == m * 2 + k * TWO32;
    assert k == 0 || k == -1;
  }

  lemma QuadrupledSign(b: int)
    requires Int32(b)
    ensures S32(b * 4) >= 0 <==> b % 0x4000_0000 < 0x2000_0000
    ensures 0 <= b <= LIMIT ==> S32(b * 4) == b * 4
  {
    var m, k := b % 0x4000_0000, b / 0x4000_0000;
    assert b * 4 == m * 4 + k * TWO32;
    assert -2 <= k <= 1;
  }

  /** The products that an expiration for this reason makes of the bound do not turn negative. */
  predicate NoOverflow(q: Queue, reason: Reason, outstanding: bool) {
    q.sync && !q.raised ==>
      && (reason == BudgetExhausted ==> q.maxBudget % 0x4000_0000 < 0x2000_0000)
      && (reason == BudgetTimeout || (reason == TooIdle && outstanding) ==> q.maxBudget % 0x8000_0000 < 0x4000_0000)
  }

  /** A queue that was preempted keeps bound and budget. */
  predicate Kept(q: Queue, reason: Reason) {
    q.sync && !q.raised && reason == Preempted
  }

  lemma NewMaxBudgetSign(q: Queue, reason: Reason, maxBudget: int, rounds: int, userMax: bool, outstanding: bool)
    requires Int32(q.service) && Int32(q.maxBudget) && 0 <= maxBudget <= INT_MAX && !Kept(q, reason)
    ensures var b := NewMaxBudget(q, reason, maxBudget, rounds, userMax, outstanding);
            Int32(b) && (b >= 0 <==> NoOverflow(q, reason, outstanding))
  {
    DoubledSign(q.maxBudget);
    QuadrupledSign(q.maxBudget);
  }

  lemma MaxSign(b: int, charge: int)
    requires Int32(b) && 0 <= charge <= INT_MAX
    ensures S32(UMax(b, charge)) >= 0 <==> b >= 0
  {
    if b < 0 {
      assert U64(b) == b + TWO64;
    }
  }

  /** With any maximum, bound, budget and service of 32 bits, the new budget of a backlogged queue is
      not negative if and only if the bound of the queue can be multiplied as its expiration requires,
      or, for a queue that keeps its budget, that was not. */
  lemma RecalculatedSign(q: Queue, reason: Reason, maxBudget: int, rounds: int, userMax: bool, outstanding: bool,
                         asymmetric: bool)
    requires Int32(q.service) && Int32(q.budget) && Int32(q.maxBudget) && 0 <= maxBudget <= INT_MAX
    requires q.next.Some? && SizeOk(q.next.value)
    ensures Recalculated(q, reason, maxBudget, rounds, userMax, outstanding, asymmetric).budget >= 0 <==>
              if Kept(q, reason) then q.budget >= 0 else NoOverflow(q, reason, outstanding)
  {
    if !Kept(q, reason) {
      NewMaxBudgetSign(q, reason, maxBudget, rounds, userMax, outstanding);
      ChargeOk(q, q.next.value, asymmetric);
      MaxSign(NewMaxBudget(q, reason, maxBudget, rounds, userMax, outstanding), Charge(q, q.next.value, asymmetric));
    }
  }

  /** On an activation: not negative if and only if the bound is not, or the rest of the old budget is
      used. */
  lemma ActivatedSign(q: Queue, inTime: bool, asymmetric: bool)
    requires Int32(q.maxBudget) && q.next.Some? && SizeOk(q.next.value)
    ensures Activated(q, inTime, asymmetric).budget >= 0 <==>
              q.maxBudget >= 0 || (q.waiting && inTime && BudgetLeft(q) > 0)
  {
    ChargeOk(q, q.next.value, asymmetric);
    MaxSign(q.maxBudget, Charge(q, q.next.value, asymmetric));
    if q.maxBudget < 0 {
      assert U64(q.maxBudget) == q.maxBudget + TWO64;
    }
  }

  /** With a new next request: not negative if and only if bound and service are not. */
  lemma FollowedSign(q: Queue, asymmetric: bool)
    requires Int32(q.maxBudget) && Int32(q.service) && q.next.Some? && SizeOk(q.next.value)
    ensures Followed(q, asymmetric).budget >= 0 <==> q.maxBudget >= 0 && q.service >= 0
  {
    ChargeOk(q, q.next.value, asymmetric);
    if q.maxBudget < 0 {
      assert U64(q.maxBudget) == q.maxBudget + TWO64;
    }
    if q.service < 0 {
      assert U64(q.service) == q.service + TWO64;
    }
  }

  /** The bound of a new queue: two thirds of the maximum, rounded towards zero. */
  function InitialBound(maxBudget: int): (b: int) {
    var d := S32(2 * maxBudget);
    if d >= 0 then d / 3 else -(-d / 3)
  }

  /** A new queue can have a bound that is not negative. */
  predicate Creatable(maxBudget: int) {
    maxBudget < 0x4000_0000 || maxBudget == INT_MAX
  }

  lemma InitialBoundSign(maxBudget: int)
    requires 0 <= maxBudget <= INT_MAX
    ensures InitialBound(maxBudget) >= 0 <==> Creatable(maxBudget)
    ensures maxBudget < 0x4000_0000 ==> 0 <= 2 * maxBudget - 3 * InitialBound(maxBudget) < 3
    ensures InitialBound(maxBudget) <= 2 * maxBudget / 3
  {
  }

  /** A new synchronous queue with a first request. */
  function FirstRequest(maxBudget: int, sectors: int): (q: Queue) {
    Queue(0, 0, InitialBound(maxBudget), Some(sectors), 1, true, false, true, false)
  }

  /** So, under a maximum of 2^30, a queue has a negative bound from the start and a negative budget
      from its first request on; and every request seems to fit. */
  lemma CreatedNegative()
    ensures var f := FirstRequest(0x4000_0000, 8);
            var q := Activated(f, false, false);
            f.maxBudget < 0 && q.budget < 0 && Fits(q, false)
  {
    var f := FirstRequest(0x4000_0000, 8);
    InitialBoundSign(0x4000_0000);
    ActivatedSign(f, false, false);
    assert f.maxBudget == -715827882;
    assert U64(f.maxBudget) == f.maxBudget + TWO64;
  }

  /** The limit is the largest safe maximum. A queue is created under a maximum below the limit and is
      in order. If the maximum is then raised to any value above the limit, one timeout and the
      exhaustion of the next budget leave the queue with a negative budget. */
  lemma LimitIsLargest(maxBudget: int, sectors: int)
    requires LIMIT < maxBudget <= INT_MAX && SizeOk(sectors)
    ensures var q := Activated(FirstRequest(0x1800_0000, sectors), false, false);
            var late := Recalculated(q, BudgetTimeout, maxBudget, 249, true, false, false);
            && 0x1800_0000 < LIMIT && QueueOk(q, LIMIT) && 0 <= late.budget && late.maxBudget == LIMIT + 1
            && Recalculated(late, BudgetExhausted, maxBudget, 249, true, false, false).budget < 0
  {
    var f := FirstRequest(0x1800_0000, sectors);
    ActivatedOk(f, false, false, LIMIT);
    var q := Activated(f, false, false);
    assert q.maxBudget == 0x1000_0000;
    RecalculatedSign(q, BudgetTimeout, maxBudget, 249, true, false, false);
    var late := Recalculated(q, BudgetTimeout, maxBudget, 249, true, false, false);
    assert late.maxBudget == 0x2000_0000;
    RecalculatedSign(late, BudgetExhausted, maxBudget, 249, true, false, false);
  }

  lemma ActivatedOk(q: Queue, inTime: bool, asymmetric: bool, top: Ceiling)
    requires QueueOk(q, top) && q.next.Some?
    ensures var r := Activated(q, inTime, asymmetric);
            && QueueOk(r, top) && r == q.(budget := r.budget, service := 0, waiting := r.waiting)
            && (q.waiting && inTime && q.service < q.budget ==> r.budget == Min(q.budget - q.service, q.maxBudget))
            && (!(q.waiting && inTime && q.service < q.budget) ==>
                  r.budget == Max(q.maxBudget, Charge(q, q.next.value, asymmetric)) && !r.waiting)
  {
    ChargeOk(q, q.next.value, asymmetric);
  }

  lemma FollowedOk(q: Queue, asymmetric: bool, top: Ceiling)
    requires QueueOk(q, top)
    ensures QueueOk(Followed(q, asymmetric), top) && Followed(q, asymmetric).service == q.service
    ensures q.next.Some? ==>
              var c := Charge(q, q.next.value, asymmetric);
              Followed(q, asymmetric).budget == Max(Max(q.maxBudget, c), q.service)
  {
    if q.next.Some? {
      ChargeOk(q, q.next.value, asymmetric);
    }
  }

  lemma TimeShare(maxBudget: int, time: nat, timeout: nat)
    requires 0 <= maxBudget && timeout > 0
    ensures 0 <= maxBudget * Min(time, timeout) / timeout <= maxBudget
  {
    var t := Min(time, timeout);
    var x := maxBudget * t;
    assert 0 <= x <= maxBudget * timeout;
    QuotientAtMost(x, maxBudget, timeout);
  }

  /** Charging time spends at most the budget, which it raises if need be, and never gives service
      back. */
  lemma ChargedTimeOk(q: Queue, maxBudget: int, time: nat, timeout: nat, top: Ceiling)
    requires QueueOk(q, top) && 0 <= maxBudget <= top && timeout > 0
    ensures var r := ChargedTime(q, maxBudget, time, timeout);
            && QueueOk(r, top) && r == q.(budget := r.budget, service := r.service)
            && r.service == Max(maxBudget * Min(time, timeout) / timeout, q.service)
            && r.budget == Max(q.budget, r.service)
  {
    TimeShare(maxBudget, time, timeout);
  }

  /** On a timeout, on exhaustion and with requests still with the device the bound falls at most to
      the current maximum. Idleness may lower it, but not below the minimum. A queue without
      requests gets what it was served, or the minimum. */
  lemma AdaptedDirection(q: Queue, reason: Reason, maxBudget: int, minBudget: int, outstanding: bool)
    requires QueueOk(q, LIMIT) && 0 <= maxBudget <= LIMIT && 0 <= minBudget <= LIMIT / 32
    ensures var b := Adapted(q, reason, maxBudget, minBudget, outstanding);
            && (reason == BudgetTimeout || reason == BudgetExhausted || (reason == TooIdle && outstanding) ==>
                  Min(q.maxBudget, maxBudget) <= b <= maxBudget)
            && (reason == TooIdle && !outstanding ==> minBudget <= b <= Max(q.maxBudget, minBudget))
            && (reason == NoMoreRequests ==> b == Max(q.service, minBudget))
  {
    QuadrupledSign(q.maxBudget);
    DoubledSign(q.maxBudget);
  }

  lemma NewMaxBudgetAtMost(q: Queue, reason: Reason, maxBudget: int, rounds: int, userMax: bool, outstanding: bool,
                           top: Ceiling)
    requires QueueOk(q, top) && 0 <= maxBudget <= top
    ensures NewMaxBudget(q, reason, maxBudget, rounds, userMax, outstanding) <= top
  {
  }

  /** The new upper bound stays in range if it does not overflow, and is negative if it does. If it
      does not, a backlogged queue gets enough for its next request. The service is still that of the
      last round: it is kept only if the queue is empty, and then the budget is the old one. */
  lemma RecalculatedOk(q: Queue, reason: Reason, maxBudget: int, rounds: int, userMax: bool, outstanding: bool,
                       asymmetric: bool, top: Ceiling)
    requires QueueOk(q, top) && 0 <= maxBudget <= top
    ensures var r := Recalculated(q, reason, maxBudget, rounds, userMax, outstanding, asymmetric);
            && r == q.(maxBudget := r.maxBudget, budget := r.budget)
            && (q.next.None? ==> r.budget == q.budget)
            && if NoOverflow(q, reason, outstanding) then
                 && 0 <= r.maxBudget <= top && 0 <= r.budget <= top
                 && (q.next.Some? && !Kept(q, reason) ==> Charge(q, q.next.value, asymmetric) <= r.budget)
               else r.maxBudget < 0
  {
    NewMaxBudgetAtMost(q, reason, maxBudget, rounds, userMax, outstanding, top);
    if !Kept(q, reason) {
      NewMaxBudgetSign(q, reason, maxBudget, rounds, userMax, outstanding);
    }
    if q.next.Some? {
      ChargeOk(q, q.next.value, asymmetric);
    }
  }

  /** The bound after an expiration in plain integers: the maximum for an asynchronous queue, twice the
      lowest budget for a weight-raised one, and otherwise by the reason; capped by the maximum once the
      statistics are in use, unless the user has set it. */
  ghost function IdealBound(q: Queue, reason: Reason, maxBudget: int, rounds: int, userMax: bool,
                            outstanding: bool): (b: int)
  {
    var low := if rounds < 194 then 512 else maxBudget / 32;
    var b :=
      if !q.sync then maxBudget
      else if q.raised then 2 * low
      else
        match reason
        case TooIdle =>
          if outstanding then Min(2 * q.maxBudget, maxBudget)
          else if q.maxBudget > 5 * low then q.maxBudget - 4 * low else low
        case BudgetTimeout => Min(2 * q.maxBudget, maxBudget)
        case BudgetExhausted => Min(4 * q.maxBudget, maxBudget)
        case NoMoreRequests => Max(q.service, low)
        case Preempted => q.maxBudget;
    if rounds >= 194 && !userMax then Min(b, maxBudget) else b
  }

  /** Multiplying under the limit is exact. */
  lemma AdaptedIdeal(q: Queue, reason: Reason, maxBudget: int, minBudget: int, outstanding: bool)
    requires QueueOk(q, LIMIT) && 0 <= maxBudget <= LIMIT && 0 <= minBudget <= LIMIT / 32
    ensures var b, m := Adapted(q, reason, maxBudget, minBudget, outstanding), q.maxBudget;
            match reason
            case TooIdle =>
              b == (if outstanding then Min(2 * m, maxBudget) else if m > 5 * minBudget then m - 4 * minBudget
                    else minBudget)
            case BudgetTimeout => b == Min(2 * m, maxBudget)
            case BudgetExhausted => b == Min(4 * m, maxBudget)
            case NoMoreRequests => b == Max(q.service, minBudget)
            case Preempted => b == m
  {
  }

  lemma NewMaxBudgetIdeal(q: Queue, reason: Reason, maxBudget: int, rounds: int, userMax: bool, outstanding: bool,
                          top: Ceiling)
    requires QueueOk(q, top) && 0 <= maxBudget <= top && (top == LIMIT || !q.sync || q.raised)
    ensures NewMaxBudget(q, reason, maxBudget, rounds, userMax, outstanding)
         == IdealBound(q, reason, maxBudget, rounds, userMax, outstanding)
  {
    if q.sync && !q.raised {
      AdaptedIdeal(q, reason, maxBudget, MinBudget(rounds, maxBudget), outstanding);
    }
  }

  /** Under the limit, and for asynchronous and weight-raised queues always, that is the bound; and a
      backlogged queue gets this much, or as much as its next request costs. */
  lemma RecalculatedIdeal(q: Queue, reason: Reason, maxBudget: int, rounds: int, userMax: bool, outstanding: bool,
                          asymmetric: bool, top: Ceiling)
    requires QueueOk(q, top) && 0 <= maxBudget <= top && (top == LIMIT || !q.sync || q.raised)
    ensures var r := Recalculated(q, reason, maxBudget, rounds, userMax, outstanding, asymmetric);
            if Kept(q, reason) then r == q
            else
              && r.maxBudget == IdealBound(q, reason, maxBudget, rounds, userMax, outstanding)
              && (q.next.Some? ==> r.budget == Max(r.maxBudget, Cost(q, q.next.value, asymmetric)))
  {
    if !Kept(q, reason) {
      NewMaxBudgetIdeal(q, reason, maxBudget, rounds, userMax, outstanding, top);
      NewMaxBudgetAtMost(q, reason, maxBudget, rounds, userMax, outstanding, top);
      NewMaxBudgetSign(q, reason, maxBudget, rounds, userMax, outstanding);
      if q.next.Some? {
        ChargeIsCost(q, q.next.value, asymmetric);
        ChargeOk(q, q.next.value, asymmetric);
        MaxOfBoth(NewMaxBudget(q, reason, maxBudget, rounds, userMax, outstanding),
                  Charge(q, q.next.value, asymmetric));
      }
    }
  }

  lemma MaxOfBoth(a: int, b: int)
    requires 0 <= a <= INT_MAX && 0 <= b <= INT_MAX
    ensures S32(UMax(a, b)) == Max(a, b)
  {
  }

  /** Under the limit nothing overflows. */
  lemma NoOverflowLow(q: Queue, reason: Reason, outstanding: bool)
    requires QueueOk(q, LIMIT)
    ensures NoOverflow(q, reason, outstanding)
  {
  }

  /** A maximum above the limit does break the rule: the bound of a queue that exhausts its budget is
      multiplied in 32 bits, and the next budget is negative. */
  lemma AboveLimitOverdraws()
    ensures var q := Queue(600_000_000, 600_000_000, 600_000_000, Some(8), 1, true, false, true, false);
            var r := Recalculated(q, BudgetExhausted, 900_000_000, 249, true, false, false);
            && r.maxBudget < 0 && r.budget < 0 && Fits(r.(service := 0), false)
  {
  }

  // ---------------------------------------------------------------- the queues

  /** What the heuristics decide, and what the clock says, on an expiration: whether the queue was
      slow, for how long it was served, whether it has requests with the device, whether it is
      re-queued although empty, and whether the last reference to it goes. */
  datatype Expiry = Expiry(slow: bool, time: nat, timeout: nat, outstanding: bool, requeue: bool, gone: bool)

  method ChargeTime(q: Queue, maxBudget: int, time: nat, timeout: nat, ghost top: Ceiling) returns (r: Queue)
    requires QueueOk(q, top) && 0 <= maxBudget <= top && timeout > 0
    ensures QueueOk(r, top) && r == q.(budget := r.budget, service := r.service)
    ensures r.service == Max(maxBudget * Min(time, timeout) / timeout, q.service)
    ensures r.budget == Max(q.budget, r.service)
  {
    ChargedTimeOk(q, maxBudget, time, timeout, top);
    r := ChargedTime(q, maxBudget, time, timeout);
  }

  method RecalcBudget(q: Queue, reason: Reason, maxBudget: int, rounds: int, userMax: bool, outstanding: bool,
                      asymmetric: bool, ghost top: Ceiling)
    returns (r: Queue)
    requires QueueOk(q, top) && 0 <= maxBudget <= top
    ensures r == q.(maxBudget := r.maxBudget, budget := r.budget)
    ensures q.next.None? ==> r.budget == q.budget
    ensures if NoOverflow(q, reason, outstanding) then
              && 0 <= r.maxBudget <= top && 0 <= r.budget <= top
              && (q.next.Some? && !Kept(q, reason) ==> Charge(q, q.next.value, asymmetric) <= r.budget)
            else r.maxBudget < 0
    ensures top == LIMIT || !q.sync || q.raised ==>
              if Kept(q, reason) then r == q
              else
                && r.maxBudget == IdealBound(q, reason, maxBudget, rounds, userMax, outstanding)
                && (q.next.Some? ==> r.budget == Max(r.maxBudget, Cost(q, q.next.value, asymmetric)))
  {
    RecalculatedOk(q, reason, maxBudget, rounds, userMax, outstanding, asymmetric, top);
    if top == LIMIT || !q.sync || q.raised {
      RecalculatedIdeal(q, reason, maxBudget, rounds, userMax, outstanding, asymmetric, top);
    }
    r := Recalculated(q, reason, maxBudget, rounds, userMax, outstanding, asymmetric);
  }

  method Activate(q: Queue, inTime: bool, asymmetric: bool, ghost top: Ceiling) returns (r: Queue)
    requires QueueOk(q, top) && q.next.Some?
    ensures QueueOk(r, top) && r == q.(budget := r.budget, service := 0, waiting := r.waiting)
    ensures q.waiting && inTime && q.service < q.budget ==> r.budget == Min(q.budget - q.service, q.maxBudget)
    ensures !(q.waiting && inTime && q.service < q.budget) ==>
              r.budget == Max(q.maxBudget, Charge(q, q.next.value, asymmetric)) && !r.waiting
  {
    ActivatedOk(q, inTime, asymmetric, top);
    r := Activated(q, inTime, asymmetric);
  }

  method Follow(q: Queue, asymmetric: bool, ghost top: Ceiling) returns (r: Queue)
    requires QueueOk(q, top)
    ensures QueueOk(r, top) && r == q.(budget := r.budget)
    ensures q.next.Some? ==> r.budget == Max(Max(q.maxBudget, Charge(q, q.next.value, asymmetric)), q.service)
    ensures q.next.None? ==> r == q
  {
    FollowedOk(q, asymmetric, top);
    r := Followed(q, asymmetric);
  }

  /** A slow queue, or one that timed out with a third of its budget left, is charged for the time it had:
      that share of the maximum, if it is more than its service. */
  ghost function ServiceCharged(q: Queue, reason: Reason, e: Expiry, maxBudget: int): (n: int)
    requires e.timeout > 0
  {
    if !q.raised && (e.slow || (reason == BudgetTimeout && q.budget - q.service >= q.budget / 3))
    then Max(maxBudget * Min(e.time, e.timeout) / e.timeout, q.service) else q.service
  }

  /** A slow queue, or one that timed out with much of its budget left, is charged time. */
  method SlowCharged(q: Queue, reason: Reason, e: Expiry, maxBudget: int, ghost top: Ceiling) returns (r: Queue)
    requires QueueOk(q, top) && 0 <= maxBudget <= top && e.timeout > 0
    ensures QueueOk(r, top) && r == q.(budget := r.budget, service := r.service)
    ensures r.service == ServiceCharged(q, reason, e, maxBudget) && r.budget == Max(q.budget, r.service)
  {
    r := q;
    if !q.raised && (e.slow || (reason == BudgetTimeout && BudgetLeft(q) >= q.budget / 3)) {
      r := ChargeTime(q, maxBudget, e.time, e.timeout, top);
    }
  }

  /** An empty queue is not busy, unless it is re-queued, and if it is not it may wait for a request. */
  method Settled(q: Queue, reason: Reason, e: Expiry) returns (r: Queue)
    ensures r == q.(busy := r.busy, waiting := r.waiting, service := r.service)
    ensures r.busy == (q.busy && (q.queued > 0 || (reason == Preempted && e.requeue)))
    ensures if !r.busy && reason != BudgetTimeout && reason != BudgetExhausted
            then r.waiting && r.service == q.service else r.waiting == q.waiting && r.service == 0
  {
    r := q;
    if q.queued == 0 && !(reason == Preempted && e.requeue) {
      r := q.(busy := false);
    }
    if !r.busy && reason != BudgetTimeout && reason != BudgetExhausted {
      r := r.(waiting := true);
    } else {
      r := r.(service := 0);
    }
  }

  /** What bfq_bfqq_expire does to the queue: an empty queue that ran out of requests keeps its
      service and budget for its return; every other one starts again from zero. The queue is in order
      afterwards if and only if its bound does not overflow. */
  method Expired(q0: Queue, reason: Reason, e: Expiry, asymmetric: bool, maxBudget: int, rounds: int, userMax: bool,
                 ghost top: Ceiling)
    returns (q: Queue)
    requires QueueOk(q0, top) && 0 <= maxBudget <= top && e.timeout > 0 && q0.busy
    ensures q.queued == q0.queued && q.next == q0.next && q.sync == q0.sync
    ensures q.busy <==> q0.queued > 0 || (reason == Preempted && e.requeue)
    ensures q.busy || reason == BudgetTimeout || reason == BudgetExhausted ==> q.service == 0
    ensures !q.busy && reason != BudgetTimeout && reason != BudgetExhausted ==>
              q.waiting && q.service >= q0.service && q.budget >= q0.budget
    ensures if NoOverflow(q0, reason, e.outstanding) then
              QueueOk(q, top) && (q.next.Some? && !Kept(q, reason) ==> Fits(q, asymmetric))
            else q.maxBudget < 0
    ensures !Kept(q0, reason) && (top == LIMIT || !q0.sync || q0.raised) ==>
              && q.maxBudget == IdealBound(q0.(service := ServiceCharged(q0, reason, e, maxBudget)), reason, maxBudget,
                                           rounds, userMax, e.outstanding)
              && (q.next.Some? ==> q.budget == Max(q.maxBudget, Cost(q0, q.next.value, asymmetric)))
  {
    q := SlowCharged(q0, reason, e, maxBudget, top);
    q := RecalcBudget(q, reason, maxBudget, rounds, userMax, e.outstanding, asymmetric, top);
    q := Settled(q, reason, e);
    if q.next.Some? && NoOverflow(q0, reason, e.outstanding) {
      FitsMeans(q, asymmetric, top);
    }
  }

  /** What bfq_add_request does to the queue. */
  method Extended(q0: Queue, sectors: int, better: bool, inTime: bool, raise: bool, asymmetric: bool, inService: bool,
                  minBudget: int, ghost top: Ceiling)
    returns (q: Queue)
    requires QueueOk(q0, top) && SizeOk(sectors) && 0 <= minBudget <= top / 32 && (inService ==> q0.busy)
    ensures QueueOk(q, top) && q.busy && q.queued == q0.queued + 1
    ensures q.service == if q0.busy then q0.service else 0
    ensures inService ==> q.budget == q0.budget
    ensures !q0.busy ==>
              var b := if q0.waiting && inTime && q0.service < q0.budget
                       then Min(q0.budget - q0.service, q0.maxBudget)
                       else Max(q0.maxBudget, Cost(q0, sectors, asymmetric));
              q.budget == (if raise then Min(b, 2 * minBudget) else b) && q.raised == (q0.raised || raise)
    ensures q0.busy && !inService && (q0.next.None? || better) ==>
              q.budget == Max(Max(q0.maxBudget, Cost(q0, sectors, asymmetric)), q0.service)
    ensures !q0.busy && !raise && !(q0.waiting && inTime) ==> Fits(q, asymmetric)
    ensures !q0.busy && q0.waiting && inTime ==> q.budget <= Max(q0.budget, Max(q0.maxBudget, sectors * ASYNC_FACTOR))
  {
    var change := q0.next.None? || better;
    ChargeIsCost(q0, sectors, asymmetric);
    q := q0.(next := if change then Some(sectors) else q0.next, queued := q0.queued + 1, busy := true);
    if !q0.busy {
      q := Activate(q, inTime, asymmetric, top);
      if raise {
        q := q.(raised := true, budget := S32(UMin(q.budget, S32(2 * minBudget))));
      }
    } else if change && !inService {
      q := Follow(q, asymmetric, top);
    }
  }

  /** The queue goes with its expiration. */
  predicate Leaves(q: Queue, reason: Reason, e: Expiry) {
    q.queued == 0 && !(reason == Preempted && e.requeue) && e.gone
  }

  datatype Step =
    | NewQueue(id: Id, sync: bool)
    | Arrival(id: Id, sectors: int, better: bool, inTime: bool, raise: bool, asymmetric: bool)
    | Removal(id: Id, wasNext: bool, next: Option<int>, asymmetric: bool)
    | Serve(id: Id, next: Option<int>, asymmetric: bool, later: bool)
    | Select(id: Id)
    | Check(expiry: Expiry, asymmetric: bool)
    | Finish(reason: Reason, expiry: Expiry, asymmetric: bool)
    | Raise(id: Id, raised: bool)
    | NewMaximum(value: int, byUser: bool)

  /** Requests have a possible size, timeouts are positive, and maxima stay below the ceiling. */
  predicate StepOk(step: Step, top: Ceiling) {
    match step
    case Arrival(_, sectors, _, _, _, _) => SizeOk(sectors)
    case Removal(_, _, next, _) => next.Some? ==> SizeOk(next.value)
    case Serve(_, next, _, _) => next.Some? ==> SizeOk(next.value)
    case Check(e, _) => e.timeout > 0
    case Finish(_, e, _) => e.timeout > 0
    case NewMaximum(value, _) => 0 <= value <= top
    case _ => true
  }

  class Budgets {
    var queues: map<Id, Queue>
    var serving: Option<Id>
    var maxBudget: int
    var rounds: int
    var userMax: bool
    ghost const top: Ceiling

    ghost predicate Valid()
      reads this
    {
      && (forall i {:trigger QueueOk(queues[i], top)} :: i in queues ==> QueueOk(queues[i], top))
      && 0 <= maxBudget <= top
      && (serving.Some? ==> serving.value in queues && queues[serving.value].busy)
    }

    constructor (ghost top: Ceiling)
      ensures Valid() && queues == map[] && serving == None && this.top == top
    {
      this.top := top;
      queues, serving, maxBudget, rounds, userMax := map[], None, DEFAULT_MAX_BUDGET, 0, false;
    }

    /** A change of one queue. */
    ghost predicate Only(before: map<Id, Queue>, id: Id)
      reads this
    {
      id in queues && queues == before[id := queues[id]]
    }

    /** bfq_max_budget. */
    function Most(): (m: int)
      reads this
    {
      if rounds < MIN_BUDGETS then DEFAULT_MAX_BUDGET else maxBudget
    }

    /** A new queue. */
    method Create(id: Id, sync: bool)
      requires Valid() && id !in queues
      modifies this`queues
      ensures Only(old(queues), id) && serving == old(serving)
      ensures rounds < 194 ==> queues[id].maxBudget == 10922
      ensures rounds >= 194 && maxBudget < 0x4000_0000 ==> 0 <= 2 * maxBudget - 3 * queues[id].maxBudget < 3
      ensures queues[id].sync == sync && queues[id].queued == 0 && !queues[id].busy && !queues[id].raised
      ensures if Creatable(old(Most())) then Valid() else queues[id].maxBudget < 0
    {
      InitialBoundSign(Most());
      queues := queues[id := Queue(0, 0, InitialBound(Most()), None, 0, sync, false, false, false)];
      assert Creatable(Most()) ==> QueueOk(queues[id], top);
    }

    /** bfq_add_request: the first request of an idle queue gets it a budget, which is cut if weight
        raising begins now; a better next request of a queue out of service changes its budget. */
    method AddRequest(id: Id, sectors: int, better: bool, inTime: bool, raise: bool, asymmetric: bool)
      requires Valid() && id in queues && SizeOk(sectors)
      modifies this`queues
      ensures Valid() && Only(old(queues), id) && serving == old(serving)
      ensures queues[id].busy && queues[id].queued == old(queues)[id].queued + 1
      ensures !old(queues)[id].busy ==> queues[id].service == 0
      ensures old(queues)[id].busy ==> queues[id].service == old(queues)[id].service
      ensures serving == Some(id) ==> queues[id].budget == old(queues)[id].budget
      ensures var q := old(queues)[id];
              !q.busy ==>
                var b := if q.waiting && inTime && q.service < q.budget
                         then Min(q.budget - q.service, q.maxBudget)
                         else Max(q.maxBudget, Cost(q, sectors, asymmetric));
                queues[id].budget == if raise then Min(b, 2 * (if rounds < 194 then 512 else maxBudget / 32)) else b
    {
      assert QueueOk(queues[id], top);
      var q := Extended(queues[id], sectors, better, inTime, raise, asymmetric, serving == Some(id),
                        MinBudget(rounds, maxBudget), top);
      queues := queues[id := q];
      assert QueueOk(queues[id], top);
    }

    /** bfq_remove_request: `next` is what bfq_find_next_rq finds. A queue that runs empty out of
        service loses its budget. */
    method RemoveRequest(id: Id, wasNext: bool, next: Option<int>, asymmetric: bool)
      requires Valid() && id in queues && queues[id].next.Some? && (next.Some? ==> SizeOk(next.value))
      requires next.None? <==> queues[id].queued == 1
      requires queues[id].queued == 1 ==> wasNext
      modifies this`queues
      ensures Valid() && Only(old(queues), id) && serving == old(serving)
      ensures queues[id].queued == old(queues)[id].queued - 1
      ensures serving == Some(id) ==>
                queues[id].service == old(queues)[id].service && queues[id].budget == old(queues)[id].budget
      ensures serving != Some(id) && next.None? ==> queues[id].service == queues[id].budget == 0 && !queues[id].busy
      ensures serving != Some(id) && next.Some? ==>
                && queues[id].service == old(queues)[id].service
                && queues[id].budget ==
                     if wasNext then
                       Max(Max(queues[id].maxBudget, Charge(queues[id], next.value, asymmetric)), queues[id].service)
                     else old(queues)[id].budget
    {
      var q := queues[id];
      assert QueueOk(q, top);
      var q1 := q.(next := if wasNext then next else q.next, queued := q.queued - 1);
      if wasNext && serving != Some(id) {
        q1 := Follow(q1, asymmetric, top);
      }
      if q1.queued == 0 && serving != Some(id) {
        q1 := q1.(busy := false, service := 0, budget := 0);
      }
      queues := queues[id := q1];
      assert QueueOk(queues[id], top);
    }

    /** bfq_dispatch_rq_from_bfqq, for the queue in service or, as an injection, for another one:
        possible only if the request fits. */
    method Dispatch(id: Id, next: Option<int>, asymmetric: bool, later: bool)
      requires Valid() && id in queues && Fits(queues[id], asymmetric)
      requires (next.Some? ==> SizeOk(next.value)) && (next.None? <==> queues[id].queued == 1)
      modifies this`queues
      ensures Valid() && Only(old(queues), id) && serving == old(serving)
      ensures queues[id].queued == old(queues)[id].queued - 1
      ensures serving == Some(id) ==>
                && queues[id].service == old(queues)[id].service
                                         + Cost(old(queues)[id], old(queues)[id].next.value, asymmetric)
                && queues[id].budget == old(queues)[id].budget
      ensures serving != Some(id) && next.None? ==> queues[id].service == queues[id].budget == 0 && !queues[id].busy
      ensures serving != Some(id) && next.Some? ==>
                && queues[id].service == old(queues)[id].service
                                         + Cost(old(queues)[id], old(queues)[id].next.value, asymmetric)
                && queues[id].budget ==
                     Max(Max(queues[id].maxBudget, Cost(queues[id], next.value, later)), queues[id].service)
    {
      var q := queues[id];
      assert QueueOk(q, top);
      FitsMeans(q, asymmetric, top);
      ChargeIsCost(q, q.next.value, asymmetric);
      if next.Some? {
        ChargeIsCost(q, next.value, later);
      }
      queues := queues[id := q.(service := S32(q.service + Charge(q, q.next.value, asymmetric)))];
      assert QueueOk(queues[id], top);
      RemoveRequest(id, true, next, later);
    }

    /** bfq_set_in_service_queue. */
    method SetInService(id: Id)
      requires Valid() && serving == None && id in queues && queues[id].busy
      modifies this`serving, this`rounds
      ensures Valid() && queues == old(queues) && serving == Some(id)
      ensures 0 <= 7 * old(rounds) + 256 - 8 * rounds < 8
    {
      serving := Some(id);
      rounds := (rounds * 7 + 256) / 8;
    }

    /** bfq_bfqq_expire on the queue in service: an empty queue that ran out of requests keeps its
        service and budget for its return; every other one starts again from zero. */
    method Expire(reason: Reason, e: Expiry, asymmetric: bool)
      requires Valid() && serving.Some? && e.timeout > 0
      modifies this`queues, this`serving
      ensures serving == None
      ensures var id := old(serving).value;
              if Leaves(old(queues)[id], reason, e) then
                Valid() && id !in queues && queues == map i | i in old(queues) && i != id :: old(queues)[i]
              else
                && Only(old(queues), id)
                && (if NoOverflow(old(queues)[id], reason, e.outstanding) then Valid() else queues[id].maxBudget < 0)
                && (!Kept(old(queues)[id], reason) && (top == LIMIT || !queues[id].sync || old(queues)[id].raised) ==>
                      var q := old(queues)[id].(service := ServiceCharged(old(queues)[id], reason, e, maxBudget));
                      queues[id].maxBudget == IdealBound(q, reason, maxBudget, rounds, userMax, e.outstanding))
                && (queues[id].busy || reason == BudgetTimeout || reason == BudgetExhausted ==> queues[id].service == 0)
                && (!queues[id].busy && reason != BudgetTimeout && reason != BudgetExhausted ==>
                      queues[id].waiting && queues[id].service >= old(queues)[id].service)
    {
      var id := serving.value;
      assert QueueOk(queues[id], top);
      var q := Expired(queues[id], reason, e, asymmetric, maxBudget, rounds, userMax, top);
      serving := None;
      if !q.busy && e.gone {
        queues := map i | i in queues && i != id :: queues[i];
        assert forall i :: i in queues ==> QueueOk(old(queues)[i], top);
      } else {
        queues := queues[id := q];
        assert NoOverflow(old(queues)[id], reason, e.outstanding) ==> QueueOk(queues[id], top);
      }
    }

    /** The test of bfq_select_queue on the queue in service, which has a next request: go on with it
        if the request fits in what is left of the budget, otherwise expire it. */
    method CheckServing(e: Expiry, asymmetric: bool) returns (keep: bool)
      requires Valid() && serving.Some? && queues[serving.value].next.Some? && e.timeout > 0
      modifies this`queues, this`serving
      ensures var q := old(queues)[old(serving).value];
              && (keep <==> Fits(q, asymmetric))
              && (keep <==> q.service + Charge(q, q.next.value, asymmetric) <= q.budget)
              && if keep then Valid() && serving == old(serving) && queues == old(queues)
                 else
                   && serving == None && old(serving).value in queues
                   && if NoOverflow(q, BudgetExhausted, e.outstanding) then Valid()
                      else queues[old(serving).value].maxBudget < 0
    {
      var id := serving.value;
      assert QueueOk(queues[id], top);
      FitsMeans(queues[id], asymmetric, top);
      keep := Fits(queues[id], asymmetric);
      if !keep {
        Expire(BudgetExhausted, e, asymmetric);
      }
    }

    /** Weight raising begins or ends at any time. */
    method SetRaised(id: Id, raised: bool)
      requires Valid() && id in queues
      modifies this`queues
      ensures Valid() && queues == old(queues)[id := old(queues)[id].(raised := raised)] && serving == old(serving)
    {
      assert QueueOk(queues[id], top);
      queues := queues[id := queues[id].(raised := raised)];
      assert QueueOk(queues[id], top);
    }

    /** A new maximum, from the estimator or from the user. */
    method SetMaxBudget(value: int, byUser: bool)
      requires Valid() && 0 <= value <= top
      modifies this`maxBudget, this`userMax
      ensures Valid() && queues == old(queues) && serving == old(serving)
      ensures maxBudget == value && userMax == byUser
    {
      maxBudget, userMax := value, byUser;
    }

    /** No bound turns negative in this step: a new queue is created under a maximum that can be
        doubled, or is INT_MAX, and the bound of an expiring queue can be multiplied as required. */
    predicate Safe(step: Step)
      reads this
    {
      match step
      case NewQueue(id, _) => id !in queues ==> Creatable(Most())
      case Check(e, asymmetric) =>
        serving.Some? && serving.value in queues && queues[serving.value].next.Some?
        && !Fits(queues[serving.value], asymmetric) ==>
          NoOverflow(queues[serving.value], BudgetExhausted, e.outstanding)
      case Finish(reason, e, _) =>
        serving.Some? && serving.value in queues && !Leaves(queues[serving.value], reason, e) ==>
          NoOverflow(queues[serving.value], reason, e.outstanding)
      case _ => true
    }

    lemma SafeLow(step: Step)
      requires Valid() && top == LIMIT
      ensures Safe(step)
    {
      if serving.Some? {
        var id := serving.value;
        assert id in queues;
        assert QueueOk(queues[id], top);
        match step
        case Check(e, _) => NoOverflowLow(queues[id], BudgetExhausted, e.outstanding);
        case Finish(reason, e, _) => NoOverflowLow(queues[id], reason, e.outstanding);
        case _ =>
      }
    }

    lemma NegativeBound(id: Id)
      requires id in queues && queues[id].maxBudget < 0
      ensures !Valid()
    {
      assert !QueueOk(queues[id], top);
    }

    /** What each step does, in short, if it is possible. */
    ghost predicate Happened(before: map<Id, Queue>, served: Option<Id>, step: Step)
      reads this
    {
      match step
      case NewQueue(id, _) => id in queues
      case Arrival(id, _, _, _, _, _) =>
        id in before ==> id in queues && queues[id].busy && queues[id].queued == before[id].queued + 1
      case Removal(id, wasNext, next, _) =>
        id in before && before[id].next.Some? && (next.None? <==> before[id].queued == 1)
        && (before[id].queued == 1 ==> wasNext) ==>
          id in queues && queues[id].queued == before[id].queued - 1
      case Serve(id, next, asymmetric, _) =>
        id in before && Fits(before[id], asymmetric) && (next.None? <==> before[id].queued == 1) ==>
          id in queues && queues[id].queued == before[id].queued - 1
      case Select(id) => served == None && id in before && before[id].busy ==> serving == Some(id)
      case Check(_, asymmetric) =>
        served.Some? && served.value in before && before[served.value].next.Some? ==>
          (serving == served <==> Fits(before[served.value], asymmetric))
      case Finish(_, _, _) => serving == None
      case Raise(id, raised) => id in before ==> id in queues && queues[id].raised == raised
      case NewMaximum(value, byUser) => maxBudget == value && userMax == byUser
    }

    /** One step of a run, if it is possible. */
    method Step(step: Step)
      requires Valid() && StepOk(step, top)
      modifies this
      ensures Valid() <==> old(Safe(step))
      ensures !Valid() ==> exists i :: i in queues && queues[i].maxBudget < 0
      ensures Happened(old(queues), old(serving), step)
    {
      match step {
        case NewQueue(id, sync) =>
          if id !in queues {
            Create(id, sync);
            if !old(Safe(step)) {
              NegativeBound(id);
            }
          }
        case Arrival(id, sectors, better, inTime, raise, asymmetric) =>
          if id in queues {
            AddRequest(id, sectors, better, inTime, raise, asymmetric);
          }
        case Removal(id, wasNext, next, asymmetric) =>
          if id in queues && queues[id].next.Some? && (next.None? <==> queues[id].queued == 1)
             && (queues[id].queued == 1 ==> wasNext) {
            RemoveRequest(id, wasNext, next, asymmetric);
          }
        case Serve(id, next, asymmetric, later) =>
          if id in queues && Fits(queues[id], asymmetric) && (next.None? <==> queues[id].queued == 1) {
            Dispatch(id, next, asymmetric, later);
          }
        case Select(id) =>
          if serving == None && id in queues && queues[id].busy {
            SetInService(id);
          }
        case Check(e, asymmetric) =>
          if serving.Some? && queues[serving.value].next.Some? {
            ghost var id := serving.value;
            var keep := CheckServing(e, asymmetric);
            if !old(Safe(step)) {
              NegativeBound(id);
            }
          }
        case Finish(reason, e, asymmetric) =>
          if serving.Some? {
            ghost var id := serving.value;
            Expire(reason, e, asymmetric);
            if !old(Safe(step)) {
              NegativeBound(id);
            }
          }
        case Raise(id, raised) =>
          if id in queues {
            SetRaised(id, raised);
          }
        case NewMaximum(value, byUser) =>
          SetMaxBudget(value, byUser);
      }
    }

    /** Any run of arrivals, removals, dispatches and injections, selections, charges, expirations and
        reactivations, under maxima up to the ceiling: while every step is safe no queue has spent more
        than its budget, and the first step that is not leaves a negative bound. With the limit as the
        ceiling there is no such step. */
    method Run(steps: seq<Step>) returns (done: nat)
      requires Valid() && forall i :: 0 <= i < |steps| ==> StepOk(steps[i], top)
      modifies this
      ensures done <= |steps|
      ensures Valid() ==> done == |steps| && forall i :: i in queues ==> 0 <= queues[i].service <= queues[i].budget
      ensures !Valid() ==> exists i :: i in queues && queues[i].maxBudget < 0
      ensures top == LIMIT ==> Valid()
    {
      done := 0;
      var safe := true;
      while done < |steps| && safe
        invariant 0 <= done <= |steps| && (safe <==> Valid())
        invariant !safe ==> exists i :: i in queues && queues[i].maxBudget < 0
        invariant top == LIMIT ==> safe
      {
        if top == LIMIT {
          SafeLow(steps[done]);
        }
        safe := Safe(steps[done]);
        Step(steps[done]);
        done := done + 1;
      }
      if safe {
        forall j | j in queues ensures 0 <= queues[j].service <= queues[j].budget {
          assert QueueOk(queues[j], top);
        }
      }
    }
  }
}
