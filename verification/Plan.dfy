/** Pricing and shaping a plan change (internal/domain/plan.go). */
module Plan {
  import opened MachineInts
  import opened Options
  import opened Waterfall
  import opened Buckets
  import opened Calendar

  datatype ChangePolicy = Reset | Prorate | Stack | Deny | UnknownPolicy(name: string)

  datatype ChangeError = ChangeDenied | ProratePermanent | BadPeriod | PolicyUnknown

  datatype PlanSnapshot = PlanSnapshot(id: Int64, transferBytes: Int64, periodDays: Int64, price: Int64)

  datatype LiveSubscription = LiveSubscription(transferBytes: Int64, usedBytes: Int64, expiredAt: Option<Instant>)

  datatype ChangeRequest = ChangeRequest(
    policy: ChangePolicy,
    oldPlan: PlanSnapshot,
    newPlan: PlanSnapshot,
    current: LiveSubscription,
    at: Instant,
    loc: Option<int>)

  datatype ChangeMode = ModeReplace | ModeExtend

  datatype ChangeOutcome = ChangeOutcome(
    mode: ChangeMode,
    expiredAt: Option<Instant>,
    transferBytes: Int64,
    usedBytes: Int64,
    charge: Int64,
    credit: Int64)

  // ----- rounding divisions

  /** `floorDiv`: int64 division that steps the truncated quotient down where the signs differ. */
  function FloorDiv(a: Int64, b: Int64): Int64
    requires b != 0
  {
    var q := Wrap64(Quo(a, b));
    if Rem(a, b) != 0 && ((a < 0) != (b < 0)) then Wrap64(q - 1) else q
  }

  /** `ceilDiv`: the same, stepping up where the signs agree. */
  function CeilDiv(a: Int64, b: Int64): Int64
    requires b != 0
  {
    var q := Wrap64(Quo(a, b));
    if Rem(a, b) != 0 && ((a < 0) == (b < 0)) then Wrap64(q + 1) else q
  }

  /** `q` is the greatest integer not above `a / b`. */
  predicate IsFloor(q: int, a: int, b: int) {
    if b > 0 then q * b <= a < (q + 1) * b else q * b >= a > (q + 1) * b
  }

  /** `q` is the least integer not below `a / b`. */
  predicate IsCeil(q: int, a: int, b: int) {
    if b > 0 then (q - 1) * b < a <= q * b else (q - 1) * b > a >= q * b
  }

  lemma Division(x: nat, n: nat)
    requires n > 0
    ensures x == x / n * n + x % n && 0 <= x % n < n
    ensures 0 <= x / n <= x
    ensures n >= 2 ==> 2 * (x / n) <= x
  {
    var q := x / n;
    Product(q, n);
  }

  lemma Product(q: nat, n: nat)
    requires n > 0
    ensures q <= q * n
    ensures n >= 2 ==> 2 * q <= q * n
  {
  }

  lemma SignedProduct(q: int, b: int)
    ensures (-q) * b == -(q * b) && q * (-b) == -(q * b) && (-q) * (-b) == q * b
  {
  }

  /** The truncated quotient lies between zero and the exact one. */
  lemma QuoTruncates(a: int, b: int)
    requires b != 0
    ensures Abs(Rem(a, b)) < Abs(b)
    ensures Rem(a, b) != 0 ==> (Rem(a, b) < 0) == (a < 0)
    ensures Abs(Quo(a, b)) <= Abs(a)
    ensures Abs(b) >= 2 ==> 2 * Abs(Quo(a, b)) <= Abs(a)
  {
    var q, n := Abs(a) / Abs(b), Abs(b);
    Division(Abs(a), n);
    SignedProduct(q, b);
    SignedProduct(q, n);
    assert Quo(a, b) * b == if a < 0 then -(q * n) else q * n;
  }

  /** The one quotient an int64 cannot hold. */
  predicate QuotientOverflows(a: Int64, b: Int64) {
    a == MIN_INT64 && b == -1
  }

  lemma QuotientFits(a: Int64, b: Int64)
    requires b != 0
    ensures FitsInt64(Quo(a, b)) <==> !QuotientOverflows(a, b)
    ensures Rem(a, b) != 0 ==> FitsInt64(Quo(a, b) - 1) && FitsInt64(Quo(a, b) + 1)
    ensures QuotientOverflows(a, b) ==> Quo(a, b) == MAX_INT64 + 1 && Rem(a, b) == 0
  {
    QuoTruncates(a, b);
    if b == 1 {
      assert Quo(a, b) == a;
    } else if b == -1 {
      assert Quo(a, b) == 0 - a;
    }
  }

  lemma Neighbours(q: int, b: int)
    ensures (q - 1) * b == q * b - b && (q + 1) * b == q * b + b
  {
  }

  /** `floorDiv` is the mathematical floor for all signs, but for the quotient an int64 cannot hold. */
  lemma FloorDivIsFloorIff(a: Int64, b: Int64)
    requires b != 0
    ensures IsFloor(FloorDiv(a, b), a, b) <==> !QuotientOverflows(a, b)
  {
    QuoTruncates(a, b);
    QuotientFits(a, b);
    hide Quo, Wrap64;
    Neighbours(Quo(a, b), b);
  }

  lemma CeilDivIsCeilIff(a: Int64, b: Int64)
    requires b != 0
    ensures IsCeil(CeilDiv(a, b), a, b) <==> !QuotientOverflows(a, b)
  {
    QuoTruncates(a, b);
    QuotientFits(a, b);
    hide Quo, Wrap64;
    Neighbours(Quo(a, b), b);
  }

  // ----- remaining days

  /** `Time.Sub`: a duration saturates at the ends of the int64 nanoseconds. */
  function Sub(t: Instant, u: Instant): Int64 {
    if t - u > MAX_INT64 then MAX_INT64 else if t - u < MIN_INT64 then MIN_INT64 else t - u
  }

  function RemainingDays(at: Instant, expiredAt: Instant, loc: Option<int>): nat {
    var aDay := Date(Year(at, loc), Month(at, loc), DayOfMonth(at, loc), None);
    var eDay := Date(Year(expiredAt, loc), Month(expiredAt, loc), DayOfMonth(expiredAt, loc), None);
    var days := Quo(Sub(eDay, aDay), DAY);
    if days < 0 then 0 else days
  }

  /** As many whole days as an int64 duration holds, some 292 years. */
  const MAX_DURATION_DAYS: int := 106_751

  /** The count is the difference of the local dates, never negative, up to what a duration holds. */
  lemma RemainingDaysCountsDates(at: Instant, expiredAt: Instant, loc: Option<int>)
    ensures RemainingDays(at, expiredAt, loc)
         == Max(0, Min(LocalDay(expiredAt, loc) - LocalDay(at, loc), MAX_DURATION_DAYS))
  {
    hide Date, Year, Month, DayOfMonth, LocalDay;
    DateRoundTrip(at, loc, None);
    DateRoundTrip(expiredAt, loc, None);
    WholeDays(LocalDay(expiredAt, loc), LocalDay(at, loc));
  }

  /** Days are counted in the billing timezone: `east` seconds east of UTC, as UTC counts them that much later. */
  lemma RemainingDaysInZone(at: Instant, expiredAt: Instant, east: int)
    ensures RemainingDays(at, expiredAt, Some(east)) == RemainingDays(at + east * SECOND, expiredAt + east * SECOND, None)
  {
    RemainingDaysCountsDates(at, expiredAt, Some(east));
    RemainingDaysCountsDates(at + east * SECOND, expiredAt + east * SECOND, None);
    hide RemainingDays;
  }

  lemma WholeDays(e: int, a: int)
    ensures Max(0, Quo(Sub(e * DAY, a * DAY), DAY)) == Max(0, Min(e - a, MAX_DURATION_DAYS))
  {
  }

  // ----- the change

  /** `AddDate(0, 0, days)`; under a fixed offset the location does not matter. */
  function AddDays(t: Instant, days: int): Instant {
    AddDate(t, 0, days, None)
  }

  function ResetOutcome(req: ChangeRequest): ChangeOutcome {
    ChangeOutcome(ModeReplace, Some(AddDays(req.at, req.newPlan.periodDays)), req.newPlan.transferBytes, 0,
                  req.newPlan.price, 0)
  }

  function StackOutcome(req: ChangeRequest): ChangeOutcome {
    var expiry := match req.current.expiredAt
      case None => None
      case Some(e) => Some(AddDays(if e < req.at then req.at else e, req.newPlan.periodDays));
    ChangeOutcome(ModeExtend, expiry, Wrap64(req.current.transferBytes + req.newPlan.transferBytes),
                  req.current.usedBytes, req.newPlan.price, 0)
  }

  /** What `remaining` of `days` of an amount are worth, rounded down; the product is int64 arithmetic. */
  function Gained(amount: Int64, remaining: nat, days: Int64): Int64
    requires days > 0
  {
    FloorDiv(Wrap64(amount * remaining), days)
  }

  /** The same rounded up. */
  function Surrendered(amount: Int64, remaining: nat, days: Int64): Int64
    requires days > 0
  {
    CeilDiv(Wrap64(amount * remaining), days)
  }

  function ChargeOf(diff: Int64): Int64 {
    if diff >= 0 then diff else 0
  }

  function CreditOf(diff: Int64): Int64 {
    if diff >= 0 then 0 else Wrap64(0 - diff)
  }

  function ProrateOutcome(req: ChangeRequest, remaining: nat): ChangeOutcome
    requires req.newPlan.periodDays > 0 && req.oldPlan.periodDays > 0
  {
    var gained := Gained(req.newPlan.price, remaining, req.newPlan.periodDays);
    var surrendered := Surrendered(req.oldPlan.price, remaining, req.oldPlan.periodDays);
    var diff := Wrap64(gained - surrendered);
    ChangeOutcome(ModeReplace, req.current.expiredAt,
                  Gained(req.newPlan.transferBytes, remaining, req.newPlan.periodDays), 0,
                  ChargeOf(diff), CreditOf(diff))
  }

  function ApplyChange(req: ChangeRequest): Result<ChangeOutcome, ChangeError> {
    if req.newPlan.periodDays <= 0 then Err(BadPeriod)
    else match req.policy
      case Deny =>
        if req.current.expiredAt.None? || req.current.expiredAt.value > req.at then Err(ChangeDenied)
        else Ok(ResetOutcome(req))
      case Reset => Ok(ResetOutcome(req))
      case Stack => Ok(StackOutcome(req))
      case Prorate =>
        if req.current.expiredAt.None? then Err(ProratePermanent)
        else if req.oldPlan.periodDays <= 0 then Err(BadPeriod)
        else Ok(ProrateOutcome(req, RemainingDays(req.at, req.current.expiredAt.value, req.loc)))
      case UnknownPolicy(_) => Err(PolicyUnknown)
  }

  /** What a subscription holds once an outcome has been applied to it. */
  function Applied(out: ChangeOutcome): LiveSubscription {
    LiveSubscription(out.transferBytes, out.usedBytes, out.expiredAt)
  }

  // ----- prorating

  function Remaining(req: ChangeRequest): nat
    requires req.current.expiredAt.Some?
  {
    RemainingDays(req.at, req.current.expiredAt.value, req.loc)
  }

  predicate Prorates(req: ChangeRequest) {
    req.policy == Prorate && req.current.expiredAt.Some? && req.newPlan.periodDays > 0 && req.oldPlan.periodDays > 0
  }

  /** The products the pricing forms fit an int64, as it takes for granted. */
  predicate ProductsFit(req: ChangeRequest, days: nat) {
    FitsInt64(req.newPlan.price * days) && FitsInt64(req.oldPlan.price * days)
  }

  /** The worth of `days` of a plan, rounded down and up. */
  function WorthDown(p: PlanSnapshot, days: nat): int
    requires p.periodDays > 0
  {
    p.price * days / p.periodDays
  }

  function WorthUp(p: PlanSnapshot, days: nat): int
    requires p.periodDays > 0
  {
    WorthDown(p, days) + if p.price * days % p.periodDays == 0 then 0 else 1
  }

  /** What changing plans with `days` left costs; the user is owed the amount if it is negative. */
  function Net(oldPlan: PlanSnapshot, newPlan: PlanSnapshot, days: nat): int
    requires oldPlan.periodDays > 0 && newPlan.periodDays > 0
  {
    WorthDown(newPlan, days) - WorthUp(oldPlan, days)
  }

  /** An amount that can be a charge and, negated, a credit. */
  predicate Payable(net: int) {
    Abs(net) <= MAX_INT64
  }

  lemma RoundedQuotient(q: int, a: int, b: int)
    requires b > 0
    ensures IsFloor(q, a, b) <==> q == a / b
    ensures IsCeil(q, a, b) <==> q == a / b + if a % b == 0 then 0 else 1
  {
    var f := a / b;
    assert a == f * b + a % b;
    Neighbours(q, b);
    MultipleIsFar(q - f, b);
    assert (q - f) * b == q * b - f * b;
  }

  /** A multiple other than zero is at least as far from zero as the divisor, and further from the second on. */
  lemma MultipleIsFar(k: int, b: int)
    requires b > 0
    ensures k >= 1 ==> k * b >= b
    ensures k >= 2 ==> k * b >= 2 * b
    ensures k <= -1 ==> k * b <= -b
  {
  }

  lemma PositiveDivisions(a: Int64, b: Int64)
    requires b > 0
    ensures FloorDiv(a, b) == a / b
    ensures CeilDiv(a, b) == a / b + if a % b == 0 then 0 else 1
  {
    FloorDivIsFloorIff(a, b);
    CeilDivIsCeilIff(a, b);
    hide FloorDiv, CeilDiv, IsFloor, IsCeil;
    RoundedQuotient(FloorDiv(a, b), a, b);
    RoundedQuotient(CeilDiv(a, b), a, b);
  }

  lemma WorthsFit(p: PlanSnapshot, days: nat)
    requires p.periodDays > 0 && FitsInt64(p.price * days)
    ensures Gained(p.price, days, p.periodDays) == WorthDown(p, days)
    ensures Surrendered(p.price, days, p.periodDays) == WorthUp(p, days)
    ensures 0 <= p.price ==> 0 <= WorthDown(p, days) <= WorthUp(p, days)
  {
    PositiveDivisions(p.price * days, p.periodDays);
    hide FloorDiv, CeilDiv;
    if 0 <= p.price {
      assert 0 <= p.price * days;
      Division(p.price * days, p.periodDays);
    }
  }

  /** The outcome asks for `net` as a charge or grants it as a credit, never both. */
  predicate Settles(out: ChangeOutcome, net: int) {
    out.charge - out.credit == net && 0 <= out.charge && 0 <= out.credit && (out.charge == 0 || out.credit == 0)
  }

  lemma SettlesIff(diff: int, out: ChangeOutcome)
    requires out.charge == ChargeOf(Wrap64(diff)) && out.credit == CreditOf(Wrap64(diff))
    ensures Settles(out, diff) <==> Payable(diff)
  {
  }

  /**
    A prorated change nets the new plan's remaining days rounded down, less the old plan's
    rounded up: exactly as long as that net can be paid either way, which nonnegative
    prices guarantee. The expiry stays and the counter restarts, whatever the prices.
   */
  lemma ProrateNets(req: ChangeRequest)
    requires Prorates(req)
    ensures ApplyChange(req).Ok?
    ensures var out := ApplyChange(req).value;
            out.expiredAt == req.current.expiredAt && out.usedBytes == 0 && out.mode == ModeReplace
    ensures ProductsFit(req, Remaining(req)) ==>
              var out, net := ApplyChange(req).value, Net(req.oldPlan, req.newPlan, Remaining(req));
              && (Settles(out, net) <==> Payable(net))
              && (0 <= req.oldPlan.price && 0 <= req.newPlan.price ==> Payable(net))
  {
    hide Remaining, ApplyChange, ProrateOutcome, ProductsFit, Settles, Payable, WorthDown, WorthUp, Wrap64;
    hide ChargeOf, CreditOf;
    var days := Remaining(req);
    ProrateApplies(req);
    ProrateKeepsExpiry(req, days);
    if ProductsFit(req, days) {
      ProrateOutcomeNets(req, days);
      SettlesIff(Net(req.oldPlan, req.newPlan, days), ProrateOutcome(req, days));
      if 0 <= req.oldPlan.price && 0 <= req.newPlan.price {
        NetPayable(req, days);
      }
    }
  }

  lemma ProrateKeepsExpiry(req: ChangeRequest, days: nat)
    requires req.newPlan.periodDays > 0 && req.oldPlan.periodDays > 0
    ensures var out := ProrateOutcome(req, days);
            out.expiredAt == req.current.expiredAt && out.usedBytes == 0 && out.mode == ModeReplace
  {
    hide Gained, Surrendered, ChargeOf, CreditOf, Wrap64;
  }

  /** The outcome of a prorated change is the one for the days that remain. */
  lemma ProrateApplies(req: ChangeRequest)
    requires Prorates(req)
    ensures ApplyChange(req) == Ok(ProrateOutcome(req, Remaining(req)))
  {
    hide RemainingDays, ProrateOutcome;
  }

  lemma ProrateOutcomeNets(req: ChangeRequest, days: nat)
    requires req.newPlan.periodDays > 0 && req.oldPlan.periodDays > 0 && ProductsFit(req, days)
    ensures var out, net := ProrateOutcome(req, days), Wrap64(Net(req.oldPlan, req.newPlan, days));
            out.charge == ChargeOf(net) && out.credit == CreditOf(net)
  {
    WorthsFit(req.newPlan, days);
    WorthsFit(req.oldPlan, days);
    hide Gained, Surrendered, ChargeOf, CreditOf, WorthDown, WorthUp, Wrap64;
  }

  lemma NetPayable(req: ChangeRequest, days: nat)
    requires req.newPlan.periodDays > 0 && req.oldPlan.periodDays > 0 && ProductsFit(req, days)
    requires 0 <= req.oldPlan.price && 0 <= req.newPlan.price
    ensures Payable(Net(req.oldPlan, req.newPlan, days))
  {
    WorthsFit(req.newPlan, days);
    WorthsFit(req.oldPlan, days);
    hide WorthDown, WorthUp, FloorDiv, CeilDiv, Wrap64;
  }

  /** The exact worth of `days` of an amount that lasts `period` days. */
  function ExactWorth(amount: Int64, days: nat, period: Int64): real
    requires period > 0
  {
    (amount * days) as real / period as real
  }

  lemma DivisionReal(a: int, b: int)
    requires b > 0
    ensures (a / b) as real <= a as real / b as real < (a / b + 1) as real
    ensures a % b == 0 <==> (a / b) as real == a as real / b as real
  {
    assert a as real / b as real == (a / b) as real + (a % b) as real / b as real;
  }

  /** Rounding favours the user, by less than two minor units. */
  lemma ProrateFavoursTheUser(req: ChangeRequest)
    requires Prorates(req)
    ensures ApplyChange(req).Ok?
    ensures ProductsFit(req, Remaining(req)) && Payable(Net(req.oldPlan, req.newPlan, Remaining(req))) ==>
              var out, days := ApplyChange(req).value, Remaining(req);
              var net := out.charge - out.credit;
              net as real <= ExactWorth(req.newPlan.price, days, req.newPlan.periodDays)
                             - ExactWorth(req.oldPlan.price, days, req.oldPlan.periodDays) < (net + 2) as real
  {
    hide ApplyChange, Remaining, ProductsFit, Payable;
    ProrateNets(req);
    DivisionReal(req.newPlan.price * Remaining(req), req.newPlan.periodDays);
    DivisionReal(req.oldPlan.price * Remaining(req), req.oldPlan.periodDays);
  }

  /**
    The allowance rounds against the user: it is short of its exact share by less than a
    byte, and by nothing exactly when the days divide evenly.
   */
  lemma ProratedAllowance(req: ChangeRequest)
    requires Prorates(req)
    ensures ApplyChange(req).Ok?
    ensures FitsInt64(req.newPlan.transferBytes * Remaining(req)) ==>
              var allowance, days := ApplyChange(req).value.transferBytes, Remaining(req);
              var exact := ExactWorth(req.newPlan.transferBytes, days, req.newPlan.periodDays);
              && allowance as real <= exact < (allowance + 1) as real
              && (allowance as real == exact <==> req.newPlan.transferBytes * days % req.newPlan.periodDays == 0)
  {
    hide FloorDiv, CeilDiv, RemainingDays;
    var product := req.newPlan.transferBytes * Remaining(req);
    if FitsInt64(product) {
      PositiveDivisions(product, req.newPlan.periodDays);
      DivisionReal(product, req.newPlan.periodDays);
    }
  }

  /** Under `deny` a subscription changes only once it has expired, and then as under `reset`. */
  lemma DenyIsLateReset(req: ChangeRequest)
    requires req.policy == Deny && req.newPlan.periodDays > 0
    ensures ApplyChange(req) == if req.current.expiredAt.Some? && req.current.expiredAt.value <= req.at
                                then ApplyChange(req.(policy := Reset)) else Err(ChangeDenied)
  {
  }

  /** Every refusal, and when: a bad new period first, then what the policy itself demands. */
  lemma RefusedIff(req: ChangeRequest)
    ensures ApplyChange(req) == Err(BadPeriod) <==>
              req.newPlan.periodDays <= 0
              || (req.policy == Prorate && req.current.expiredAt.Some? && req.oldPlan.periodDays <= 0)
    ensures req.newPlan.periodDays > 0 ==>
              && (ApplyChange(req) == Err(ChangeDenied) <==>
                    req.policy == Deny && (req.current.expiredAt == None || req.current.expiredAt.value > req.at))
              && (ApplyChange(req) == Err(ProratePermanent) <==> req.policy == Prorate && req.current.expiredAt == None)
              && (ApplyChange(req) == Err(PolicyUnknown) <==> req.policy.UnknownPolicy?)
  {
  }
}
