/** What runs of plan changes add up to (internal/domain/plan.go). */
module PlanRuns {
  import opened MachineInts
  import opened Options
  import opened Waterfall
  import opened Calendar
  import opened Sequences
  import opened Plan

  // ----- cycles of prorated changes

  /** The charges less the credits of changing through `plans` by proration, one change at each instant. */
  function NetCharge(plans: seq<PlanSnapshot>, ats: seq<Instant>, live: LiveSubscription, loc: Option<int>)
    : Result<int, ChangeError>
    requires |plans| == |ats| + 1
    decreases |ats|
  {
    if ats == [] then Ok(0)
    else match ApplyChange(ChangeRequest(Prorate, plans[0], plans[1], live, ats[0], loc))
      case Err(e) => Err(e)
      case Ok(out) =>
        match NetCharge(plans[1..], ats[1..], Applied(out), loc)
        case Err(e) => Err(e)
        case Ok(rest) => Ok(out.charge - out.credit + rest)
  }

  /** How many of the plans do not divide evenly over the days. */
  function Inexact(plans: seq<PlanSnapshot>, days: nat): nat
    requires AllPeriodsPositive(plans)
  {
    if plans == [] then 0
    else (if plans[0].price * days % plans[0].periodDays == 0 then 0 else 1) + Inexact(plans[1..], days)
  }

  predicate AllPeriodsPositive(plans: seq<PlanSnapshot>) {
    forall i :: 0 <= i < |plans| ==> plans[i].periodDays > 0
  }

  /** A path along which every change can be priced without leaving the int64 range. */
  ghost predicate AllPriceable(plans: seq<PlanSnapshot>, days: nat) {
    && AllPeriodsPositive(plans)
    && (forall i :: 0 <= i < |plans| ==> FitsInt64(plans[i].price * days))
    && (forall i :: 0 < i < |plans| ==> Payable(Net(plans[i - 1], plans[i], days)))
  }

  /** How many of a cycle's plans, the return to the first not counted again, do not divide evenly. */
  function CycleRounding(plans: seq<PlanSnapshot>, days: nat): nat
    requires AllPeriodsPositive(plans) && plans != []
  {
    Inexact(plans[..|plans| - 1], days)
  }

  /** Every change finds the same whole days left. */
  ghost predicate SameDaysLeft(ats: seq<Instant>, expiry: Instant, loc: Option<int>, days: nat) {
    forall i :: 0 <= i < |ats| ==> RemainingDays(ats[i], expiry, loc) == days
  }

  /** Changes on one local day find the same days left. */
  lemma SameDaySameDaysLeft(at: Instant, other: Instant, expiry: Instant, loc: Option<int>)
    requires LocalDay(at, loc) == LocalDay(other, loc)
    ensures RemainingDays(at, expiry, loc) == RemainingDays(other, expiry, loc)
  {
    hide RemainingDays, LocalDay;
    RemainingDaysCountsDates(at, expiry, loc);
    RemainingDaysCountsDates(other, expiry, loc);
  }

  lemma FirstChange(plans: seq<PlanSnapshot>, ats: seq<Instant>, live: LiveSubscription, loc: Option<int>, days: nat)
    requires |plans| == |ats| + 1 && ats != []
    requires live.expiredAt.Some? && SameDaysLeft(ats, live.expiredAt.value, loc, days)
    requires AllPriceable(plans, days)
    ensures var r := ApplyChange(ChangeRequest(Prorate, plans[0], plans[1], live, ats[0], loc));
            && r.Ok? && Applied(r.value).expiredAt == live.expiredAt
            && r.value.charge - r.value.credit == Net(plans[0], plans[1], days)
  {
    hide RemainingDays, ApplyChange, WorthDown, WorthUp;
    var req := ChangeRequest(Prorate, plans[0], plans[1], live, ats[0], loc);
    ProrateNets(req);
  }

  /** The expiry is preserved, so the floors and ceilings of a path telescope. */
  lemma {:induction false} ProratesTelescope(plans: seq<PlanSnapshot>, ats: seq<Instant>, live: LiveSubscription,
                                             loc: Option<int>, days: nat)
    requires |plans| == |ats| + 1 && ats != []
    requires live.expiredAt.Some? && SameDaysLeft(ats, live.expiredAt.value, loc, days)
    requires AllPriceable(plans, days)
    ensures NetCharge(plans, ats, live, loc)
         == Ok(WorthDown(plans[|ats|], days) - WorthDown(plans[0], days) - Inexact(plans[..|ats|], days))
    decreases |ats|
  {
    hide RemainingDays, ApplyChange, WorthDown, Payable;
    var n := |ats|;
    FirstChange(plans, ats, live, loc, days);
    var out := ApplyChange(ChangeRequest(Prorate, plans[0], plans[1], live, ats[0], loc)).value;
    assert plans[..n][1..] == plans[1..][..n - 1];
    if n == 1 {
      assert ats[1..] == [];
    } else {
      ProratesTelescope(plans[1..], ats[1..], Applied(out), loc, days);
    }
  }

  lemma {:induction false} InexactBounds(plans: seq<PlanSnapshot>, days: nat)
    requires AllPeriodsPositive(plans)
    ensures 0 <= Inexact(plans, days) <= |plans|
  {
    if plans != [] {
      InexactBounds(plans[1..], days);
    }
  }

  ghost predicate OneLocalDay(ats: seq<Instant>, loc: Option<int>) {
    forall i, j :: 0 <= i < j < |ats| ==> LocalDay(ats[i], loc) == LocalDay(ats[j], loc)
  }

  lemma OneDaySameDaysLeft(ats: seq<Instant>, expiry: Instant, loc: Option<int>)
    requires OneLocalDay(ats, loc) && ats != []
    ensures SameDaysLeft(ats, expiry, loc, RemainingDays(ats[0], expiry, loc))
  {
    hide RemainingDays, LocalDay;
    forall i | 0 <= i < |ats|
      ensures RemainingDays(ats[i], expiry, loc) == RemainingDays(ats[0], expiry, loc)
    {
      SameDaySameDaysLeft(ats[i], ats[0], expiry, loc);
    }
  }

  /**
    A cycle of n changes that all find the same days left, as on one local day, and that
    comes back to the plan it started from earns the user exactly one minor unit for every
    plan that does not divide evenly over those days: at most n in all, and never a cost.
   */
  lemma {:induction false} CycleNetsRounding(plans: seq<PlanSnapshot>, ats: seq<Instant>, live: LiveSubscription,
                                        loc: Option<int>, days: nat)
    requires |plans| == |ats| + 1 && ats != [] && plans[|ats|] == plans[0]
    requires live.expiredAt.Some? && SameDaysLeft(ats, live.expiredAt.value, loc, days)
    requires AllPriceable(plans, days)
    ensures NetCharge(plans, ats, live, loc) == Ok(0 - CycleRounding(plans, days))
    ensures CycleRounding(plans, days) <= |ats|
  {
    hide RemainingDays, NetCharge;
    ProratesTelescope(plans, ats, live, loc, days);
    InexactBounds(plans[..|ats|], days);
  }

  // ----- reset, then prorate

  /** Right after a purchase the days left are the period's, up to what a duration holds. */
  lemma RemainingInvertsAddDays(at: Instant, days: nat, loc: Option<int>)
    ensures RemainingDays(at, AddDays(at, days), loc) == Min(days, MAX_DURATION_DAYS)
  {
    hide RemainingDays, AddDate;
    AddDaysIsDuration(at, days, None);
    RemainingDaysCountsDates(at, AddDays(at, days), loc);
    assert (at + Offset(loc) + days * DAY) / DAY == (at + Offset(loc)) / DAY + days;
  }

  /**
    Buying a plan under `reset` and prorating it at once to the same plan changes nothing:
    no charge, no credit, the same allowance, the same expiry, a fresh counter. Past the
    days a duration holds it costs the user part of any allowance there is.
   */
  lemma ResetThenProrateIsNeutral(p: PlanSnapshot, other: PlanSnapshot, live: LiveSubscription, at: Instant,
                                  loc: Option<int>)
    requires 0 < p.periodDays
    requires var days := Min(p.periodDays, MAX_DURATION_DAYS);
             FitsInt64(p.price * days) && FitsInt64(p.transferBytes * days)
    ensures var bought := ApplyChange(ChangeRequest(Reset, other, p, live, at, loc));
            && bought == Ok(ChangeOutcome(ModeReplace, Some(at + p.periodDays * DAY), p.transferBytes, 0, p.price, 0))
            && var again := ApplyChange(ChangeRequest(Prorate, p, p, Applied(bought.value), at, loc));
               && (p.periodDays <= MAX_DURATION_DAYS ==> again == Ok(bought.value.(charge := 0)))
               && (p.periodDays > MAX_DURATION_DAYS && p.transferBytes > 0 ==>
                     again.Ok? && again.value.transferBytes < p.transferBytes)
  {
    hide RemainingDays, Gained, Surrendered, AddDate;
    var days := Min(p.periodDays, MAX_DURATION_DAYS);
    AddDaysIsDuration(at, p.periodDays, None);
    RemainingInvertsAddDays(at, p.periodDays, loc);
    Parts(p.price, days, p.periodDays);
    Parts(p.transferBytes, days, p.periodDays);
  }

  /** All the days of a period are worth the whole amount, fewer are worth less. */
  lemma Parts(amount: Int64, days: nat, period: Int64)
    requires 0 < period && days <= period && FitsInt64(amount * days)
    ensures days == period ==> Gained(amount, days, period) == amount == Surrendered(amount, days, period)
    ensures days < period && amount > 0 ==> Gained(amount, days, period) < amount
  {
    PositiveDivisions(amount * days, period);
    RoundedQuotient(amount, amount * days, period);
    hide FloorDiv, CeilDiv;
    Neighbours(amount, period);
    if days < period && amount > 0 {
      FewerDays(amount, days, period);
    }
  }

  lemma FewerDays(amount: nat, days: nat, period: nat)
    requires days < period && amount > 0
    ensures amount * days < amount * period && amount * days / period < amount
  {
    var gap := period - days;
    assert amount * period == amount * days + amount * gap;
    Product(amount, gap);
    Division(amount * days, period);
    Apart(amount * days / period, amount, period);
  }

  lemma Apart(q: int, amount: int, period: nat)
    requires q * period < amount * period
    ensures q < amount
  {
    assert (q - amount) * period == q * period - amount * period;
  }

  // ----- stacking

  /** The plan held after buying `plans` one after the other, starting from `held`. */
  function Latest(held: PlanSnapshot, plans: seq<PlanSnapshot>): PlanSnapshot {
    if plans == [] then held else plans[|plans| - 1]
  }

  /** The state and the total charged after stacking `plans` at one instant on a subscription to `held`. */
  function Stacked(plans: seq<PlanSnapshot>, held: PlanSnapshot, live: LiveSubscription, at: Instant, loc: Option<int>)
    : Result<(LiveSubscription, int), ChangeError>
  {
    if plans == [] then Ok((live, 0))
    else
      var init, last := plans[..|plans| - 1], plans[|plans| - 1];
      match Stacked(init, held, live, at, loc)
      case Err(e) => Err(e)
      case Ok((before, paid)) =>
        match ApplyChange(ChangeRequest(Stack, Latest(held, init), last, before, at, loc))
        case Err(e) => Err(e)
        case Ok(out) => Ok((Applied(out), paid + out.charge))
  }

  function TotalDays(plans: seq<PlanSnapshot>): int {
    if plans == [] then 0 else TotalDays(plans[..|plans| - 1]) + plans[|plans| - 1].periodDays
  }

  function TotalTransfer(plans: seq<PlanSnapshot>): int {
    if plans == [] then 0 else TotalTransfer(plans[..|plans| - 1]) + plans[|plans| - 1].transferBytes
  }

  function TotalPrice(plans: seq<PlanSnapshot>): int {
    if plans == [] then 0 else TotalPrice(plans[..|plans| - 1]) + plans[|plans| - 1].price
  }

  /** The expiry a run of stacks ends with: the days are appended to what is left, or to now after a lapse. */
  function StackedExpiry(expiredAt: Option<Instant>, at: Instant, plans: seq<PlanSnapshot>): Option<Instant> {
    if expiredAt.None? || plans == [] then expiredAt
    else Some(Max(expiredAt.value, at) + TotalDays(plans) * DAY)
  }

  lemma {:induction false} TotalDaysPositive(plans: seq<PlanSnapshot>)
    requires AllPeriodsPositive(plans)
    ensures 0 <= TotalDays(plans)
    ensures plans != [] ==> 0 < TotalDays(plans)
  {
    if plans != [] {
      TotalDaysPositive(plans[..|plans| - 1]);
    }
  }

  lemma NoStacks(expiredAt: Option<Instant>, at: Instant)
    ensures StackedExpiry(expiredAt, at, []) == expiredAt
  {
  }

  /** One more stack appends its period to the expiry so far, which is not in the past after the first. */
  lemma ExpiryMoves(expiredAt: Option<Instant>, at: Instant, plans: seq<PlanSnapshot>)
    requires AllPeriodsPositive(plans) && plans != []
    ensures var before := StackedExpiry(expiredAt, at, plans[..|plans| - 1]);
            StackedExpiry(expiredAt, at, plans)
            == if before.None? then None else Some(Max(before.value, at) + plans[|plans| - 1].periodDays * DAY)
  {
    var init := plans[..|plans| - 1];
    TotalDaysPositive(init);
    assert TotalDays(plans) * DAY == TotalDays(init) * DAY + plans[|plans| - 1].periodDays * DAY;
  }

  /** One stack sells the new plan, whichever was held before. */
  lemma OneStack(held: PlanSnapshot, p: PlanSnapshot, live: LiveSubscription, at: Instant, loc: Option<int>)
    requires p.periodDays > 0
    ensures ApplyChange(ChangeRequest(Stack, held, p, live, at, loc))
         == Ok(ChangeOutcome(ModeExtend,
                             if live.expiredAt.None? then None else Some(Max(live.expiredAt.value, at) + p.periodDays * DAY),
                             Wrap64(live.transferBytes + p.transferBytes), live.usedBytes, p.price, 0))
  {
    hide AddDate, Wrap64;
    if live.expiredAt.Some? {
      AddDaysIsDuration(Max(live.expiredAt.value, at), p.periodDays, None);
    }
  }

  /**
    Any run of stacks at one instant on any plan: the allowances bought add up with what was
    left, the counter carries over, the periods bought are appended once to what is left, and
    the prices of the plans bought are charged.
   */
  lemma {:induction false} StacksAddUp(plans: seq<PlanSnapshot>, held: PlanSnapshot, live: LiveSubscription,
                                       at: Instant, loc: Option<int>)
    requires AllPeriodsPositive(plans)
    ensures Stacked(plans, held, live, at, loc)
         == Ok((LiveSubscription(Wrap64(live.transferBytes + TotalTransfer(plans)), live.usedBytes,
                                 StackedExpiry(live.expiredAt, at, plans)),
                TotalPrice(plans)))
  {
    hide ApplyChange, StackedExpiry, TotalDays;
    if plans != [] {
      var init, last := plans[..|plans| - 1], plans[|plans| - 1];
      StacksAddUp(init, held, live, at, loc);
      var before := Stacked(init, held, live, at, loc).value.0;
      OneStack(Latest(held, init), last, before, at, loc);
      WrapAbsorbs(live.transferBytes + TotalTransfer(init), last.transferBytes);
      hide Wrap64;
      ExpiryMoves(live.expiredAt, at, plans);
    } else {
      assert StackedExpiry(live.expiredAt, at, plans) == live.expiredAt by { NoStacks(live.expiredAt, at); }
    }
  }

  /** A stack never shortens a subscription, and a permanent one stays permanent. */
  lemma {:induction false} StacksNeverShorten(plans: seq<PlanSnapshot>, held: PlanSnapshot, live: LiveSubscription, at: Instant,
                                        loc: Option<int>)
    requires AllPeriodsPositive(plans) && plans != []
    ensures Stacked(plans, held, live, at, loc).Ok?
    ensures var after := Stacked(plans, held, live, at, loc).value.0.expiredAt;
            && (live.expiredAt.None? ==> after.None?)
            && (live.expiredAt.Some? ==> after.Some? && live.expiredAt.value < after.value && at < after.value)
  {
    hide Stacked, Wrap64;
    StacksAddUp(plans, held, live, at, loc);
    TotalDaysPositive(plans);
  }

  lemma {:induction false} TotalsRemove(plans: seq<PlanSnapshot>, i: nat)
    requires i < |plans|
    ensures var rest := plans[..i] + plans[i + 1..];
            && TotalDays(plans) == TotalDays(rest) + plans[i].periodDays
            && TotalTransfer(plans) == TotalTransfer(rest) + plans[i].transferBytes
            && TotalPrice(plans) == TotalPrice(rest) + plans[i].price
  {
    var n := |plans| - 1;
    if i < n {
      TotalsRemove(plans[..n], i);
      var rest := plans[..i] + plans[i + 1..];
      assert rest[..n - 1] == plans[..n][..i] + plans[..n][i + 1..];
    } else {
      assert plans[..i] + plans[i + 1..] == plans[..n];
    }
  }

  lemma {:induction false} TotalsPermuted(plans: seq<PlanSnapshot>, other: seq<PlanSnapshot>)
    requires multiset(plans) == multiset(other)
    ensures TotalDays(plans) == TotalDays(other)
    ensures TotalTransfer(plans) == TotalTransfer(other)
    ensures TotalPrice(plans) == TotalPrice(other)
    decreases |plans|
  {
    MultisetLength(plans, other);
    if plans != [] {
      var i := MultisetMember(plans, other, |plans| - 1);
      TotalsRemove(other, i);
      RemoveOne(plans, other, i);
      TotalsPermuted(plans[..|plans| - 1], other[..i] + other[i + 1..]);
    }
  }

  lemma PositivePermuted(plans: seq<PlanSnapshot>, other: seq<PlanSnapshot>)
    requires AllPeriodsPositive(plans) && multiset(plans) == multiset(other)
    ensures AllPeriodsPositive(other)
  {
    forall i | 0 <= i < |other|
      ensures other[i].periodDays > 0
    {
      var j := MultisetMember(other, plans, i);
    }
  }

  lemma SameExpiry(expiredAt: Option<Instant>, at: Instant, plans: seq<PlanSnapshot>, other: seq<PlanSnapshot>)
    requires multiset(plans) == multiset(other)
    ensures StackedExpiry(expiredAt, at, plans) == StackedExpiry(expiredAt, at, other)
  {
    MultisetLength(plans, other);
    TotalsPermuted(plans, other);
  }

  /** A run holding a plan without a period is refused, wherever in the run it stands. */
  lemma {:induction false} BadPeriodRefused(plans: seq<PlanSnapshot>, held: PlanSnapshot, live: LiveSubscription,
                                            at: Instant, loc: Option<int>)
    requires !AllPeriodsPositive(plans)
    ensures Stacked(plans, held, live, at, loc) == Err(BadPeriod)
  {
    hide Wrap64, AddDays;
    var init := plans[..|plans| - 1];
    if AllPeriodsPositive(init) {
      StacksAddUp(init, held, live, at, loc);
    } else {
      BadPeriodRefused(init, held, live, at, loc);
    }
  }

  /** The order in which plans are stacked at one instant does not matter, to the result or to the refusal. */
  lemma {:induction false} StacksCommute(plans: seq<PlanSnapshot>, other: seq<PlanSnapshot>, held: PlanSnapshot,
                                        live: LiveSubscription, at: Instant, loc: Option<int>)
    requires multiset(plans) == multiset(other)
    ensures Stacked(plans, held, live, at, loc) == Stacked(other, held, live, at, loc)
  {
    hide Stacked, Wrap64, TotalDays, TotalTransfer, TotalPrice, StackedExpiry, AllPeriodsPositive;
    if AllPeriodsPositive(plans) {
      PositivePermuted(plans, other);
      SameExpiry(live.expiredAt, at, plans, other);
      StacksAddUp(plans, held, live, at, loc);
      StacksAddUp(other, held, live, at, loc);
      TotalsPermuted(plans, other);
    } else {
      if AllPeriodsPositive(other) {
        PositivePermuted(other, plans);
      }
      BadPeriodRefused(plans, held, live, at, loc);
      BadPeriodRefused(other, held, live, at, loc);
    }
  }
}
