/**
  Why the deduction order is what it is: charging what expires soonest first loses the
  least traffic to overflow, over every run of buckets, against every other way of charging
  active subscriptions within their allowance (internal/domain/quota.go). And when it does not.
 */
module Optimality {
  import opened MachineInts
  import opened Options
  import opened Waterfall
  import opened Buckets
  import opened Quota
  import opened DeductionOrder
  import opened LadderSteps
  import opened Batching

  /** One bucket's traffic for a user, as the `Attribute` calls it arrives in. */
  datatype Bucket = Bucket(at: Instant, calls: seq<Int64>)

  /** The overflow rows the ladder writes over a run of buckets, added up. */
  function LadderOverflow(subs: seq<SubQuota>, run: seq<Bucket>): int
    decreases |run|
  {
    if run == [] then 0
    else RowTotal(subs, run[0].at, run[0].calls, OVERFLOW_SUBSCRIPTION_ID)
         + LadderOverflow(FlushAll(subs, run[0].at, run[0].calls), run[1..])
  }

  /** Buckets come in time order, none before `from`. */
  ghost predicate InTime(run: seq<Bucket>, from: Instant) {
    run == [] || (from <= run[0].at && InTime(run[1..], run[0].at))
  }

  /** How another strategy charges each bucket: amounts per entry, from active ones, within what it has left. */
  ghost predicate Legal(left: seq<nat>, exp: seq<Option<Instant>>, run: seq<Bucket>, plan: seq<seq<nat>>)
    requires |left| == |exp|
    decreases |run|
  {
    && |plan| == |run|
    && (run != [] ==>
          && ChargesActive(left, exp, run[0], plan[0])
          && Legal(Less(left, plan[0]), exp, run[1..], plan[1..]))
  }

  ghost predicate ChargesActive(left: seq<nat>, exp: seq<Option<Instant>>, b: Bucket, charge: seq<nat>)
    requires |left| == |exp|
  {
    && Within(charge, left)
    && (forall i :: 0 <= i < |exp| && !Live(exp[i], b.at) ==> charge[i] == 0)
    && LiveSum(charge, exp, b.at, |exp|) <= Billed(b.calls)
  }

  function PlanOverflow(exp: seq<Option<Instant>>, run: seq<Bucket>, plan: seq<seq<nat>>): int
    requires |plan| == |run| && forall j :: 0 <= j < |plan| ==> |plan[j]| == |exp|
  {
    if run == [] then 0
    else Billed(run[0].calls) - LiveSum(plan[0], exp, run[0].at, |exp|) + PlanOverflow(exp, run[1..], plan[1..])
  }

  predicate NoLater(a: Option<Instant>, b: Option<Instant>) {
    b.None? || (a.Some? && a.value <= b.value)
  }

  /** Of two entries that both hold something at `from`, the earlier in the list expires no later. */
  ghost predicate SoonestFirst(rooms: seq<nat>, exp: seq<Option<Instant>>, from: Instant)
    requires |rooms| == |exp|
  {
    forall i, j :: 0 <= i < j < |exp| && rooms[i] > 0 && rooms[j] > 0 && Live(exp[i], from) && Live(exp[j], from) ==>
      NoLater(exp[i], exp[j])
  }

  /** No entry was reset after `from`, so every bucket from then on counts. */
  ghost predicate CountsFrom(subs: seq<SubQuota>, from: Instant) {
    forall i :: 0 <= i < |subs| ==> CountsTowardCurrentPeriod(from, subs[i].lastResetAt)
  }

  // ----- sums over live entries

  /** As time passes entries only expire. */
  lemma {:induction false} LiveSumShrinks(xs: seq<nat>, exp: seq<Option<Instant>>, t: Instant, u: Instant, k: nat)
    requires k <= |xs| == |exp| && t <= u
    ensures LiveSum(xs, exp, u, k) <= LiveSum(xs, exp, t, k)
  {
    if k > 0 {
      LiveSumShrinks(xs, exp, t, u, k - 1);
    }
  }

  lemma {:induction false} LiveSumSame(xs: seq<nat>, exp: seq<Option<Instant>>, t: Instant, u: Instant, k: nat)
    requires k <= |xs| == |exp| && t <= u
    requires forall i :: 0 <= i < k && Live(exp[i], t) && !Live(exp[i], u) ==> xs[i] == 0
    ensures LiveSum(xs, exp, u, k) == LiveSum(xs, exp, t, k)
  {
    if k > 0 {
      LiveSumSame(xs, exp, t, u, k - 1);
    }
  }

  lemma {:induction false} LiveSumWitness(xs: seq<nat>, exp: seq<Option<Instant>>, t: Instant, k: nat) returns (i: nat)
    requires k <= |xs| == |exp| && LiveSum(xs, exp, t, k) > 0
    ensures i < k && Live(exp[i], t) && xs[i] > 0
  {
    if Live(exp[k - 1], t) && xs[k - 1] > 0 {
      i := k - 1;
    } else {
      i := LiveSumWitness(xs, exp, t, k - 1);
    }
  }

  lemma {:induction false} LiveSumBelow(xs: seq<nat>, ys: seq<nat>, exp: seq<Option<Instant>>, t: Instant, j: nat,
                                        k: nat)
    requires k <= |xs| == |ys| == |exp| && j < |xs|
    requires forall i :: 0 <= i < |xs| && Live(exp[i], t) ==> xs[i] <= ys[i]
    requires Live(exp[j], t) && xs[j] < ys[j]
    ensures LiveSum(xs, exp, t, k) <= LiveSum(ys, exp, t, k)
    ensures j < k ==> LiveSum(xs, exp, t, k) < LiveSum(ys, exp, t, k)
  {
    if k > 0 {
      LiveSumBelow(xs, ys, exp, t, j, k - 1);
    }
  }

  // ----- the exchange argument

  /**
    `q` is what another strategy has left, `r` what the ladder has left. Past every expiry
    threshold the other strategy is ahead by at most `lead`, the overflow it has already
    lost beyond the ladder's.
   */
  ghost predicate Ahead(r: seq<nat>, q: seq<nat>, exp: seq<Option<Instant>>, from: Instant, lead: int)
    requires |r| == |q| == |exp|
  {
    && 0 <= lead
    && forall t :: from <= t ==> LiveSum(q, exp, t, |exp|) - LiveSum(r, exp, t, |exp|) <= lead
  }

  /** Once the ladder has charged something that outlives `u`, everything that does not is drained. */
  lemma {:induction false} ShortLivedDrained(r: seq<nat>, exp: seq<Option<Instant>>, t: Instant, billed: nat,
                                        u: Instant)
    requires |r| == |exp| && t <= u && SoonestFirst(r, exp, t)
    requires Within(Shares(r, exp, t, billed), r)
    requires LiveSum(Shares(r, exp, t, billed), exp, u, |exp|) > 0
    ensures var rest := Less(r, Shares(r, exp, t, billed));
            LiveSum(rest, exp, u, |exp|) == LiveSum(rest, exp, t, |exp|)
  {
    var taken := Shares(r, exp, t, billed);
    var i := LiveSumWitness(taken, exp, u, |exp|);
    forall j | 0 <= j < |exp| && Live(exp[j], t) && !Live(exp[j], u)
      ensures taken[j] == r[j]
    {
      if r[j] > 0 {
        assert r[i] > 0 && !NoLater(exp[i], exp[j]);
        SharesInOrder(r, exp, t, billed, j, i);
      }
    }
    LiveSumSame(Less(r, taken), exp, t, u, |exp|);
  }

  lemma {:induction false} AheadAt(r: seq<nat>, q: seq<nat>, exp: seq<Option<Instant>>, t: Instant, lead: int,
                                   billed: nat, charge: seq<nat>,
                u: Instant)
    requires |r| == |q| == |exp| && t <= u && Ahead(r, q, exp, t, lead) && SoonestFirst(r, exp, t)
    requires Within(charge, q) && LiveSum(charge, exp, t, |exp|) <= billed
    requires Within(Shares(r, exp, t, billed), r)
    ensures var lead' := lead + Min(billed, LiveSum(r, exp, t, |exp|)) - LiveSum(charge, exp, t, |exp|);
            && 0 <= lead'
            && LiveSum(Less(q, charge), exp, u, |exp|) - LiveSum(Less(r, Shares(r, exp, t, billed)), exp, u, |exp|) <= lead'
  {
    hide SoonestFirst;
    var taken, n := Shares(r, exp, t, billed), |exp|;
    LiveSumShares(r, exp, t, billed, n);
    LiveSumLess(r, taken, exp, t, n);
    LiveSumLess(r, taken, exp, u, n);
    LiveSumLess(q, charge, exp, t, n);
    LiveSumLess(q, charge, exp, u, n);
    LiveSumShrinks(Less(q, charge), exp, t, u, n);
    assert LiveSum(q, exp, t, n) - LiveSum(r, exp, t, n) <= lead;
    assert LiveSum(q, exp, u, n) - LiveSum(r, exp, u, n) <= lead;
    if LiveSum(taken, exp, u, n) > 0 {
      ShortLivedDrained(r, exp, t, billed, u);
    }
  }

  lemma RestSoonestFirst(r: seq<nat>, rest: seq<nat>, exp: seq<Option<Instant>>, t: Instant, u: Instant)
    requires |r| == |exp| && t <= u && Within(rest, r) && SoonestFirst(r, exp, t)
    ensures SoonestFirst(rest, exp, u)
  {
  }

  lemma {:induction false} AheadKept(r: seq<nat>, q: seq<nat>, exp: seq<Option<Instant>>, t: Instant, lead: int,
                                     billed: nat, charge: seq<nat>)
    requires |r| == |q| == |exp| && Ahead(r, q, exp, t, lead) && SoonestFirst(r, exp, t)
    requires Within(charge, q) && LiveSum(charge, exp, t, |exp|) <= billed
    requires Within(Shares(r, exp, t, billed), r)
    ensures Ahead(Less(r, Shares(r, exp, t, billed)), Less(q, charge), exp, t,
                  lead + Min(billed, LiveSum(r, exp, t, |exp|)) - LiveSum(charge, exp, t, |exp|))
    ensures SoonestFirst(Less(r, Shares(r, exp, t, billed)), exp, t)
  {
    forall u | t <= u
      ensures LiveSum(Less(q, charge), exp, u, |exp|) - LiveSum(Less(r, Shares(r, exp, t, billed)), exp, u, |exp|)
           <= lead + Min(billed, LiveSum(r, exp, t, |exp|)) - LiveSum(charge, exp, t, |exp|)
    {
      AheadAt(r, q, exp, t, lead, billed, charge, u);
    }
    AheadAt(r, q, exp, t, lead, billed, charge, t);
    RestSoonestFirst(r, Less(r, Shares(r, exp, t, billed)), exp, t, t);
  }

  /** What one bucket does to the ladder, in the terms of the exchange argument. */
  lemma {:induction false} BucketDrains(subs: seq<SubQuota>, b: Bucket, from: Instant)
    requires DistinctIds(subs) && NonZeroIds(subs) && CountsFrom(subs, from) && from <= b.at
    ensures var after := FlushAll(subs, b.at, b.calls);
            && Within(Shares(Rooms(subs), Expiries(subs), b.at, Billed(b.calls)), Rooms(subs))
            && Rooms(after) == Less(Rooms(subs), Shares(Rooms(subs), Expiries(subs), b.at, Billed(b.calls)))
            && Expiries(after) == Expiries(subs)
            && DistinctIds(after) && NonZeroIds(after) && CountsFrom(after, b.at)
    ensures RowTotal(subs, b.at, b.calls, OVERFLOW_SUBSCRIPTION_ID)
         == Billed(b.calls) - Min(Billed(b.calls), LiveSum(Rooms(subs), Expiries(subs), b.at, |subs|))
  {
    BatchesAddUp(subs, b.at, b.calls);
    DrainedRooms(subs, b.at, Billed(b.calls));
    DrainedStaysFlushable(subs, b.at, Billed(b.calls));
  }

  lemma {:induction false} LadderKeepsUp(subs: seq<SubQuota>, left: seq<nat>, run: seq<Bucket>, plan: seq<seq<nat>>,
                                         from: Instant, lead: int)
    requires DistinctIds(subs) && NonZeroIds(subs) && CountsFrom(subs, from) && InTime(run, from)
    requires |left| == |subs| && Legal(left, Expiries(subs), run, plan)
    requires SoonestFirst(Rooms(subs), Expiries(subs), from)
    requires Ahead(Rooms(subs), left, Expiries(subs), from, lead)
    ensures forall j :: 0 <= j < |plan| ==> |plan[j]| == |subs|
    ensures LadderOverflow(subs, run) <= PlanOverflow(Expiries(subs), run, plan) + lead
    decreases |run|
  {
    if run != [] {
      hide FlushAll, RowTotal, Rooms, Shares;
      var b, charge, exp := run[0], plan[0], Expiries(subs);
      BucketDrains(subs, b, from);
      RestSoonestFirst(Rooms(subs), Rooms(subs), exp, from, b.at);
      AheadKept(Rooms(subs), left, exp, b.at, lead, Billed(b.calls), charge);
      LadderKeepsUp(FlushAll(subs, b.at, b.calls), Less(left, charge), run[1..], plan[1..], b.at,
                    lead + Min(Billed(b.calls), LiveSum(Rooms(subs), exp, b.at, |exp|)) - LiveSum(charge, exp, b.at, |exp|));
    }
  }

  /** A strategy and a run it can be compared with the ladder on, from `from` on. */
  ghost predicate Comparable(subs: seq<SubQuota>, from: Instant, run: seq<Bucket>, plan: seq<seq<nat>>) {
    InTime(run, from) && Legal(Rooms(subs), Expiries(subs), run, plan)
  }

  lemma {:induction false} PlanShape(left: seq<nat>, exp: seq<Option<Instant>>, run: seq<Bucket>, plan: seq<seq<nat>>)
    requires |left| == |exp| && Legal(left, exp, run, plan)
    ensures |plan| == |run| && forall j :: 0 <= j < |plan| ==> |plan[j]| == |exp|
    decreases |run|
  {
    if run != [] {
      PlanShape(Less(left, plan[0]), exp, run[1..], plan[1..]);
      assert forall j :: 0 < j < |plan| ==> plan[j] == plan[1..][j - 1];
    }
  }

  /** Cutting a run short cuts a legal plan short. */
  lemma {:induction false} LegalPrefix(left: seq<nat>, exp: seq<Option<Instant>>, run: seq<Bucket>, plan: seq<seq<nat>>,
                                       from: Instant, m: nat)
    requires |left| == |exp| && Legal(left, exp, run, plan) && InTime(run, from) && m <= |run|
    ensures Legal(left, exp, run[..m], plan[..m]) && InTime(run[..m], from)
    decreases m
  {
    if m > 0 {
      LegalPrefix(Less(left, plan[0]), exp, run[1..], plan[1..], run[0].at, m - 1);
      assert run[..m][1..] == run[1..][..m - 1] && plan[..m][1..] == plan[1..][..m - 1];
    }
  }

  /** The ladder never loses more to overflow than the plan does. */
  ghost predicate NoWorse(subs: seq<SubQuota>, run: seq<Bucket>, plan: seq<seq<nat>>) {
    && |plan| == |run|
    && (forall j :: 0 <= j < |plan| ==> |plan[j]| == |subs|)
    && LadderOverflow(subs, run) <= PlanOverflow(Expiries(subs), run, plan)
  }

  /**
    Soonest expiry first is optimal: at every point of every run of buckets, the ladder has
    lost no more to overflow than any strategy that charges only active subscriptions within
    their allowance, one that sees the whole run in advance included.
   */
  lemma SoonestFirstIsOptimal(subs: seq<SubQuota>, from: Instant, run: seq<Bucket>, plan: seq<seq<nat>>, m: nat)
    requires DistinctIds(subs) && NonZeroIds(subs) && CountsFrom(subs, from)
    requires SoonestFirst(Rooms(subs), Expiries(subs), from)
    requires Comparable(subs, from, run, plan) && m <= |run|
    ensures m <= |plan| && NoWorse(subs, run[..m], plan[..m])
  {
    LegalPrefix(Rooms(subs), Expiries(subs), run, plan, from, m);
    LadderKeepsUp(subs, Rooms(subs), run[..m], plan[..m], from, 0);
  }

  // ----- the order is needed

  /** The amounts that are live at `t` and gone at `u`. */
  function Expiring(r: seq<nat>, exp: seq<Option<Instant>>, t: Instant, u: Instant): seq<nat>
    requires |r| == |exp|
  {
    seq(|r|, i requires 0 <= i < |r| => if Live(exp[i], t) && !Live(exp[i], u) then r[i] else 0)
  }

  function LiveOnly(r: seq<nat>, exp: seq<Option<Instant>>, u: Instant): seq<nat>
    requires |r| == |exp|
  {
    seq(|r|, i requires 0 <= i < |r| => if Live(exp[i], u) then r[i] else 0)
  }

  lemma {:induction false} LiveOnlySum(r: seq<nat>, exp: seq<Option<Instant>>, u: Instant, k: nat)
    requires k <= |r| == |exp|
    ensures LiveSum(LiveOnly(r, exp, u), exp, u, k) == LiveSum(r, exp, u, k)
  {
    if k > 0 {
      LiveOnlySum(r, exp, u, k - 1);
    }
  }

  /** If a long-lived entry stands before a short-lived one, charging what expires touches the long-lived one. */
  lemma {:induction false} WrongOneCharged(r: seq<nat>, exp: seq<Option<Instant>>, t: Instant, u: Instant, i: nat,
                                        j: nat)
    requires i < j < |r| == |exp| && t <= u && r[i] > 0 && r[j] > 0
    requires Live(exp[i], u) && Live(exp[j], t) && !Live(exp[j], u)
    ensures var billed := LiveSum(Expiring(r, exp, t, u), exp, t, |r|);
            LiveSum(Shares(r, exp, t, billed), exp, u, |r|) > 0
  {
    var expiring := Expiring(r, exp, t, u);
    var billed := LiveSum(expiring, exp, t, |r|);
    var taken := Shares(r, exp, t, billed);
    SharesWithin(r, exp, t, billed);
    LiveSumShares(r, exp, t, billed, |r|);
    AllWithin(expiring, r, exp, t, |r|);
    if LiveSum(taken, exp, u, |r|) == 0 {
      forall k | 0 <= k < |r| && Live(exp[k], u)
        ensures taken[k] == 0
      {
        LiveSumZero(taken, exp, u, |r|, k);
      }
      if taken[j] > 0 {
        SharesInOrder(r, exp, t, billed, i, j);
        assert false;
      }
      LiveSumBelow(taken, expiring, exp, t, j, |r|);
      assert false;
    }
  }

  lemma {:induction false} LiveSumZero(xs: seq<nat>, exp: seq<Option<Instant>>, t: Instant, k: nat, i: nat)
    requires i < k <= |xs| == |exp| && LiveSum(xs, exp, t, k) == 0 && Live(exp[i], t)
    ensures xs[i] == 0
  {
    if i < k - 1 {
      LiveSumZero(xs, exp, t, k - 1, i);
    }
  }

  lemma {:induction false} AllWithin(xs: seq<nat>, ys: seq<nat>, exp: seq<Option<Instant>>, t: Instant, k: nat)
    requires k <= |ys| == |exp| && Within(xs, ys)
    ensures LiveSum(xs, exp, t, k) <= LiveSum(ys, exp, t, k)
  {
    if k > 0 {
      AllWithin(xs, ys, exp, t, k - 1);
    }
  }

  /** The run that tells the two apart: bill what is about to expire, then everything that is left. */
  function TellingRun(r: seq<nat>, exp: seq<Option<Instant>>, t: Instant, u: Instant): seq<Bucket>
    requires |r| == |exp|
  {
    [Bucket(t, Ones(LiveSum(Expiring(r, exp, t, u), exp, t, |r|))), Bucket(u, Ones(LiveSum(r, exp, u, |r|)))]
  }

  function TellingPlan(r: seq<nat>, exp: seq<Option<Instant>>, t: Instant, u: Instant): seq<seq<nat>>
    requires |r| == |exp|
  {
    [Expiring(r, exp, t, u), LiveOnly(r, exp, u)]
  }

  lemma {:induction false} TellingPlanIsLegal(r: seq<nat>, exp: seq<Option<Instant>>, from: Instant, t: Instant,
                                        u: Instant)
    requires |r| == |exp| && from <= t <= u
    ensures var run, plan := TellingRun(r, exp, t, u), TellingPlan(r, exp, t, u);
            InTime(run, from) && Legal(r, exp, run, plan) && PlanOverflow(exp, run, plan) == 0
  {
    var run := TellingRun(r, exp, t, u);
    var plan: seq<seq<nat>> := TellingPlan(r, exp, t, u);
    var left := Less(r, plan[0]);
    BilledOnes(LiveSum(plan[0], exp, t, |r|));
    BilledOnes(LiveSum(r, exp, u, |r|));
    LiveOnlySum(r, exp, u, |r|);
    assert run[1..] == [run[1]] && plan[1..] == [plan[1]] && run[1..][1..] == [] && |plan[1..][1..]| == 0;
    assert ChargesActive(left, exp, run[1], plan[1]);
    assert Legal(Less(left, plan[1]), exp, run[1..][1..], plan[1..][1..]);
    assert Legal(left, exp, run[1..], plan[1..]);
    assert PlanOverflow(exp, run[1..], plan[1..]) == 0;
  }

  lemma {:induction false} BilledOnes(n: nat)
    ensures Billed(Ones(n)) == n
  {
    if n > 0 {
      BilledOnes(n - 1);
      assert Ones(n)[..n - 1] == Ones(n - 1);
    }
  }

  lemma {:induction false} LadderLosesTellingRun(subs: seq<SubQuota>, from: Instant, t: Instant, u: Instant, i: nat,
                                        j: nat)
    requires DistinctIds(subs) && NonZeroIds(subs) && CountsFrom(subs, from) && from <= t <= u && i < j < |subs|
    requires subs[i].Room() > 0 && subs[j].Room() > 0
    requires subs[i].ActiveAt(u) && subs[j].ActiveAt(t) && !subs[j].ActiveAt(u)
    ensures LadderOverflow(subs, TellingRun(Rooms(subs), Expiries(subs), t, u)) > 0
  {
    var r, exp := Rooms(subs), Expiries(subs);
    var run := TellingRun(r, exp, t, u);
    var b := LiveSum(Expiring(r, exp, t, u), exp, t, |r|);
    BucketDrains(subs, run[0], from);
    BilledOnes(b);
    WrongOneCharged(r, exp, t, u, i, j);
    AllWithin(Expiring(r, exp, t, u), r, exp, t, |r|);
    var mid := FlushAll(subs, t, run[0].calls);
    LiveSumLess(r, Shares(r, exp, t, b), exp, u, |r|);
    BucketDrains(mid, run[1], t);
    BilledOnes(LiveSum(r, exp, u, |r|));
    assert run[1..] == [run[1]] && run[1..][1..] == [];
    assert LadderOverflow(mid, run[1..])
        == RowTotal(mid, u, run[1].calls, OVERFLOW_SUBSCRIPTION_ID) + LadderOverflow(FlushAll(mid, u, run[1].calls), []);
  }

  lemma BeatenBy(subs: seq<SubQuota>, from: Instant, t: Instant, u: Instant, i: nat, j: nat)
    requires DistinctIds(subs) && NonZeroIds(subs) && CountsFrom(subs, from) && from <= t <= u && i < j < |subs|
    requires subs[i].Room() > 0 && subs[j].Room() > 0
    requires subs[i].ActiveAt(u) && subs[j].ActiveAt(t) && !subs[j].ActiveAt(u)
    ensures exists run, plan :: Comparable(subs, from, run, plan) && At(run, t, u) && !NoWorse(subs, run, plan)
  {
    hide LadderOverflow, PlanOverflow, TellingPlan, Legal, InTime, CountsFrom, DistinctIds, NonZeroIds;
    LadderLosesTellingRun(subs, from, t, u, i, j);
    var r, exp := Rooms(subs), Expiries(subs);
    TellingPlanIsLegal(r, exp, from, t, u);
    assert At(TellingRun(r, exp, t, u), t, u);
    hide TellingRun;
    assert Comparable(subs, from, TellingRun(r, exp, t, u), TellingPlan(r, exp, t, u));
    assert !NoWorse(subs, TellingRun(r, exp, t, u), TellingPlan(r, exp, t, u));
  }

  /** A run of two buckets, at `t` and at `u`. */
  ghost predicate At(run: seq<Bucket>, t: Instant, u: Instant) {
    |run| == 2 && run[0].at == t && run[1].at == u
  }

  // ----- runs of five-minute buckets

  /** Every bucket of the run starts on a boundary, as the buckets that are flushed do. */
  ghost predicate OnBoundaries(run: seq<Bucket>) {
    forall i :: 0 <= i < |run| ==> run[i].at % BUCKET_SIZE == 0
  }

  /** The first boundary at or after `t`. */
  function FirstBoundary(t: Instant): Instant {
    AlignBucket(t + BUCKET_SIZE - 1)
  }

  lemma FirstBoundaryIsLeast(t: Instant, boundary: Instant)
    requires boundary % BUCKET_SIZE == 0
    ensures FirstBoundary(t) % BUCKET_SIZE == 0 && t <= FirstBoundary(t) < t + BUCKET_SIZE
    ensures t <= boundary <==> FirstBoundary(t) <= boundary
    ensures FirstBoundary(t) < boundary ==> FirstBoundary(t) <= boundary - BUCKET_SIZE
  {
  }

  /** The first boundary at which an allowance is gone. */
  function BoundaryOf(e: Option<Instant>): Option<Instant> {
    if e.None? then None else Some(FirstBoundary(e.value))
  }

  function Boundaries(exp: seq<Option<Instant>>): seq<Option<Instant>> {
    seq(|exp|, i requires 0 <= i < |exp| => BoundaryOf(exp[i]))
  }

  /** Buckets cannot tell an expiry from the first boundary at or after it. */
  lemma BoundaryLive(e: Option<Instant>, boundary: Instant)
    requires boundary % BUCKET_SIZE == 0
    ensures Live(BoundaryOf(e), boundary) <==> Live(e, boundary)
  {
    if e.Some? {
      FirstBoundaryIsLeast(e.value, boundary);
    }
  }

  /** What a run overflows, from what every entry holds and when it expires. */
  function RunOverflow(r: seq<nat>, exp: seq<Option<Instant>>, run: seq<Bucket>): int
    requires |r| == |exp|
    decreases |run|
  {
    if run == [] then 0
    else
      var b := run[0];
      SharesWithin(r, exp, b.at, Billed(b.calls));
      Uncovered(r, exp, b.at, Billed(b.calls))
      + RunOverflow(Less(r, Shares(r, exp, b.at, Billed(b.calls))), exp, run[1..])
  }

  lemma {:induction false} LadderOverflowIs(subs: seq<SubQuota>, run: seq<Bucket>, from: Instant)
    requires DistinctIds(subs) && NonZeroIds(subs) && CountsFrom(subs, from) && InTime(run, from)
    ensures LadderOverflow(subs, run) == RunOverflow(Rooms(subs), Expiries(subs), run)
    decreases |run|
  {
    if run != [] {
      hide FlushAll, RowTotal, Rooms, Shares, CountsFrom;
      var b := run[0];
      BucketDrains(subs, b, from);
      LadderOverflowIs(FlushAll(subs, b.at, b.calls), run[1..], b.at);
    }
  }

  lemma {:induction false} SameLiveSum(xs: seq<nat>, exp: seq<Option<Instant>>, t: Instant, k: nat)
    requires k <= |xs| == |exp| && t % BUCKET_SIZE == 0
    ensures LiveSum(xs, Boundaries(exp), t, k) == LiveSum(xs, exp, t, k)
  {
    hide BoundaryOf;
    if k > 0 {
      SameLiveSum(xs, exp, t, k - 1);
      BoundaryLive(exp[k - 1], t);
    }
  }

  lemma SameShares(xs: seq<nat>, exp: seq<Option<Instant>>, t: Instant, billed: nat)
    requires |xs| == |exp| && t % BUCKET_SIZE == 0
    ensures Shares(xs, Boundaries(exp), t, billed) == Shares(xs, exp, t, billed)
    ensures Uncovered(xs, Boundaries(exp), t, billed) == Uncovered(xs, exp, t, billed)
  {
    hide LiveSum, Boundaries;
    assert |Boundaries(exp)| == |exp| by { BoundariesLength(exp); }
    forall i | 0 <= i < |xs|
      ensures Share(xs, Boundaries(exp), t, billed, i) == Share(xs, exp, t, billed, i)
    {
      SameLiveSum(xs, exp, t, i);
      SameLiveSum(xs, exp, t, i + 1);
    }
    SameLiveSum(xs, exp, t, |xs|);
  }

  lemma BoundariesLength(exp: seq<Option<Instant>>)
    ensures |Boundaries(exp)| == |exp|
  {
  }

  /** A run on boundaries overflows the same under the boundary expiries, and plans for it mean the same. */
  lemma {:induction false} SameRun(r: seq<nat>, exp: seq<Option<Instant>>, run: seq<Bucket>)
    requires |r| == |exp| && OnBoundaries(run)
    ensures RunOverflow(r, Boundaries(exp), run) == RunOverflow(r, exp, run)
    decreases |run|
  {
    if run != [] {
      hide Boundaries, Shares, Uncovered;
      BoundariesLength(exp);
      var b := run[0];
      SameShares(r, exp, b.at, Billed(b.calls));
      SharesWithin(r, exp, b.at, Billed(b.calls));
      SameRun(Less(r, Shares(r, exp, b.at, Billed(b.calls))), exp, run[1..]);
    }
  }

  lemma {:induction false} SamePlan(left: seq<nat>, exp: seq<Option<Instant>>, run: seq<Bucket>, plan: seq<seq<nat>>)
    requires |left| == |exp| && OnBoundaries(run) && Legal(left, exp, run, plan)
    ensures Legal(left, Boundaries(exp), run, plan)
    ensures |plan| == |run| && forall j :: 0 <= j < |plan| ==> |plan[j]| == |exp|
    ensures PlanOverflow(Boundaries(exp), run, plan) == PlanOverflow(exp, run, plan)
    decreases |run|
  {
    PlanShape(left, exp, run, plan);
    if run != [] {
      hide BoundaryOf;
      SameCharges(left, exp, run[0], plan[0]);
      SameLiveSum(plan[0], exp, run[0].at, |exp|);
      SamePlan(Less(left, plan[0]), exp, run[1..], plan[1..]);
    }
  }

  lemma SameCharges(left: seq<nat>, exp: seq<Option<Instant>>, b: Bucket, charge: seq<nat>)
    requires |left| == |exp| && b.at % BUCKET_SIZE == 0 && ChargesActive(left, exp, b, charge)
    ensures ChargesActive(left, Boundaries(exp), b, charge)
  {
    hide BoundaryOf;
    SameLiveSum(charge, exp, b.at, |exp|);
    forall i | 0 <= i < |exp|
      ensures Live(Boundaries(exp)[i], b.at) <==> Live(exp[i], b.at)
    {
      BoundaryLive(exp[i], b.at);
    }
  }

  /** The entries as buckets see them: each expires on a boundary. */
  function AsBucketsSee(subs: seq<SubQuota>): seq<SubQuota> {
    seq(|subs|, i requires 0 <= i < |subs| => subs[i].(expiredAt := BoundaryOf(subs[i].expiredAt)))
  }

  lemma AsBucketsSeeKeeps(subs: seq<SubQuota>, from: Instant)
    requires DistinctIds(subs) && NonZeroIds(subs) && CountsFrom(subs, from)
    ensures var seen := AsBucketsSee(subs);
            && DistinctIds(seen) && NonZeroIds(seen) && CountsFrom(seen, FirstBoundary(from))
            && Rooms(seen) == Rooms(subs) && Expiries(seen) == Boundaries(Expiries(subs))
  {
    FirstBoundaryIsLeast(from, 0);
    hide FirstBoundary, AlignBucket, BoundaryOf;
    assert forall i :: 0 <= i < |subs| ==> AsBucketsSee(subs)[i].Room() == subs[i].Room();
  }

  lemma {:induction false} InTimeFromBoundary(run: seq<Bucket>, from: Instant)
    requires InTime(run, from) && OnBoundaries(run)
    ensures InTime(run, FirstBoundary(from))
  {
    if run != [] {
      FirstBoundaryIsLeast(from, run[0].at);
    }
  }

  /** Of two entries with room at the first boundary, the earlier in the list is gone no later, to the bucket. */
  ghost predicate SoonestBucketFirst(subs: seq<SubQuota>, from: Instant) {
    SoonestFirst(Rooms(subs), Boundaries(Expiries(subs)), FirstBoundary(from))
  }

  lemma SoonestBucketIsOptimal(subs: seq<SubQuota>, from: Instant, run: seq<Bucket>, plan: seq<seq<nat>>)
    requires DistinctIds(subs) && NonZeroIds(subs) && CountsFrom(subs, from) && SoonestBucketFirst(subs, from)
    requires Comparable(subs, from, run, plan) && OnBoundaries(run)
    ensures NoWorse(subs, run, plan)
  {
    hide LadderOverflow, PlanOverflow, RunOverflow, Legal, InTime, OnBoundaries, SoonestFirst;
    hide DistinctIds, NonZeroIds, CountsFrom, FirstBoundary, AsBucketsSee;
    var seen, first := AsBucketsSee(subs), FirstBoundary(from);
    AsBucketsSeeKeeps(subs, from);
    InTimeFromBoundary(run, from);
    SamePlan(Rooms(subs), Expiries(subs), run, plan);
    SoonestFirstIsOptimal(seen, first, run, plan, |run|);
    assert run[..|run|] == run && plan[..|run|] == plan;
    LadderOverflowIs(seen, run, first);
    LadderOverflowIs(subs, run, from);
    SameRun(Rooms(subs), Expiries(subs), run);
  }

  // ----- exactly when the order is optimal

  /** No strategy beats the ladder on any run. */
  ghost predicate NeverBeaten(subs: seq<SubQuota>, from: Instant) {
    forall run, plan :: Comparable(subs, from, run, plan) ==> NoWorse(subs, run, plan)
  }

  ghost predicate NeverBeatenOnBoundaries(subs: seq<SubQuota>, from: Instant) {
    forall run, plan :: Comparable(subs, from, run, plan) && OnBoundaries(run) ==> NoWorse(subs, run, plan)
  }

  /**
    Exactly when the list order is optimal, for any list of entries: the ladder is no worse
    than every strategy on every run if and only if, of the entries that still hold something,
    none stands before one that expires sooner. On runs of five-minute buckets, which is how
    traffic is flushed, sooner means in an earlier bucket: expiries with no boundary between
    them may stand in any order.
   */
  lemma OptimalIffSoonestFirst(subs: seq<SubQuota>, from: Instant)
    requires DistinctIds(subs) && NonZeroIds(subs) && CountsFrom(subs, from)
    ensures NeverBeatenOnBoundaries(subs, from) <==> SoonestBucketFirst(subs, from)
    ensures NeverBeaten(subs, from) <==> SoonestFirst(Rooms(subs), Expiries(subs), from)
  {
    BoundaryOptimalIff(subs, from);
    InstantOptimalIff(subs, from);
  }

  lemma BoundaryOptimalIff(subs: seq<SubQuota>, from: Instant)
    requires DistinctIds(subs) && NonZeroIds(subs) && CountsFrom(subs, from)
    ensures NeverBeatenOnBoundaries(subs, from) <==> SoonestBucketFirst(subs, from)
  {
    hide NoWorse, Comparable, FirstBoundary, BoundaryOf, DistinctIds, NonZeroIds, CountsFrom;
    if SoonestBucketFirst(subs, from) {
      forall run, plan | Comparable(subs, from, run, plan) && OnBoundaries(run)
        ensures NoWorse(subs, run, plan)
      {
        SoonestBucketIsOptimal(subs, from, run, plan);
      }
    } else {
      var first, exp := FirstBoundary(from), Boundaries(Expiries(subs));
      var i, j :| 0 <= i < j < |subs| && Rooms(subs)[i] > 0 && Rooms(subs)[j] > 0
               && Live(exp[i], first) && Live(exp[j], first) && !NoLater(exp[i], exp[j]);
      BeatenInBuckets(subs, from, i, j);
    }
  }

  /** The bucket before the one in which a misplaced entry is gone, and that one, tell. */
  lemma BeatenInBuckets(subs: seq<SubQuota>, from: Instant, i: nat, j: nat)
    requires DistinctIds(subs) && NonZeroIds(subs) && CountsFrom(subs, from) && i < j < |subs|
    requires subs[i].Room() > 0 && subs[j].Room() > 0
    requires var a, b, first := BoundaryOf(subs[i].expiredAt), BoundaryOf(subs[j].expiredAt), FirstBoundary(from);
             Live(a, first) && Live(b, first) && !NoLater(a, b)
    ensures exists run, plan :: Comparable(subs, from, run, plan) && OnBoundaries(run) && !NoWorse(subs, run, plan)
  {
    hide NoWorse, Comparable, DistinctIds, NonZeroIds, CountsFrom, FirstBoundary;
    FirstBoundaryIsLeast(from, 0);
    var u := FirstBoundary(subs[j].expiredAt.value);
    FirstBoundaryIsLeast(subs[j].expiredAt.value, 0);
    FirstBoundaryIsLeast(from, u);
    BoundaryLive(subs[i].expiredAt, u);
    BoundaryLive(subs[j].expiredAt, u);
    BoundaryLive(subs[j].expiredAt, u - BUCKET_SIZE);
    BeatenBy(subs, from, u - BUCKET_SIZE, u, i, j);
  }

  lemma InstantOptimalIff(subs: seq<SubQuota>, from: Instant)
    requires DistinctIds(subs) && NonZeroIds(subs) && CountsFrom(subs, from)
    ensures NeverBeaten(subs, from) <==> SoonestFirst(Rooms(subs), Expiries(subs), from)
  {
    hide DistinctIds, NonZeroIds, CountsFrom, LadderOverflow, PlanOverflow;
    if SoonestFirst(Rooms(subs), Expiries(subs), from) {
      forall run, plan | Comparable(subs, from, run, plan)
        ensures NoWorse(subs, run, plan)
      {
        PlanShape(Rooms(subs), Expiries(subs), run, plan);
        SoonestFirstIsOptimal(subs, from, run, plan, |run|);
        assert run[..|run|] == run && plan[..|run|] == plan;
      }
    } else {
      var exp := Expiries(subs);
      var i, j :| 0 <= i < j < |subs| && Rooms(subs)[i] > 0 && Rooms(subs)[j] > 0
               && Live(exp[i], from) && Live(exp[j], from) && !NoLater(exp[i], exp[j]);
      var u := exp[j].value;
      BeatenBy(subs, from, u - 1, u, i, j);
    }
  }

  /** The shape the schema allows: data packs and at most one primary. */
  ghost predicate OnePrimary(subs: seq<SubQuota>) {
    && (forall i :: 0 <= i < |subs| ==> !subs[i].kind.Other?)
    && (forall i, j :: 0 <= i < j < |subs| ==> !(subs[i].kind.Primary? && subs[j].kind.Primary?))
  }

  /** The primary, while it and a pack both hold something, outlives the pack; `exp` says when each is gone. */
  ghost predicate PrimaryOutlivesPacks(subs: seq<SubQuota>, exp: seq<Option<Instant>>, from: Instant)
    requires |exp| == |subs|
  {
    forall i, j :: 0 <= i < |subs| && 0 <= j < |subs| && subs[i].kind.DataPack? && subs[j].kind.Primary?
                   && subs[i].Room() > 0 && subs[j].Room() > 0 && Live(exp[i], from) && Live(exp[j], from) ==>
      NoLater(exp[i], exp[j])
  }

  lemma DeductionOrderIsSoonestFirst(subs: seq<SubQuota>, exp: seq<Option<Instant>>, from: Instant)
    requires InOrder(subs) && OnePrimary(subs) && |exp| == |subs|
    requires forall i, j :: 0 <= i < j < |subs| && NoLater(subs[i].expiredAt, subs[j].expiredAt) ==> NoLater(exp[i], exp[j])
    ensures SoonestFirst(Rooms(subs), exp, from) <==> PrimaryOutlivesPacks(subs, exp, from)
  {
    forall i, j | 0 <= i < j < |subs|
      ensures subs[j].kind.DataPack? ==> subs[i].kind.DataPack? && NoLater(exp[i], exp[j])
    {
      assert !DeductsBefore(subs[j], subs[i]);
    }
    if SoonestFirst(Rooms(subs), exp, from) {
      forall i, j | 0 <= i < |subs| && 0 <= j < |subs| && subs[i].kind.DataPack? && subs[j].kind.Primary?
                    && subs[i].Room() > 0 && subs[j].Room() > 0 && Live(exp[i], from) && Live(exp[j], from)
        ensures NoLater(exp[i], exp[j])
      {
        assert i < j && Rooms(subs)[i] > 0 && Rooms(subs)[j] > 0;
      }
    }
  }

  lemma BoundariesKeepOrder(a: Option<Instant>, b: Option<Instant>)
    requires NoLater(a, b)
    ensures NoLater(BoundaryOf(a), BoundaryOf(b))
  {
  }

  /**
    Exactly when the fixed sequence, packs by expiry and then the primary, loses the least
    to overflow: when the primary does not expire before a pack that still holds something.
    On runs of five-minute buckets it is enough that it is not gone in an earlier bucket.
   */
  lemma DeductionOrderOptimalIff(subs: seq<SubQuota>, from: Instant)
    requires DistinctIds(subs) && NonZeroIds(subs) && CountsFrom(subs, from)
    requires InOrder(subs) && OnePrimary(subs)
    ensures NeverBeatenOnBoundaries(subs, from)
       <==> PrimaryOutlivesPacks(subs, Boundaries(Expiries(subs)), FirstBoundary(from))
    ensures NeverBeaten(subs, from) <==> PrimaryOutlivesPacks(subs, Expiries(subs), from)
  {
    hide NeverBeaten, NeverBeatenOnBoundaries, SoonestFirst, PrimaryOutlivesPacks, OnePrimary, InOrder, BoundaryOf;
    OptimalIffSoonestFirst(subs, from);
    DeductionOrderIsSoonestFirst(subs, Expiries(subs), from);
    forall i, j | 0 <= i < j < |subs| && NoLater(subs[i].expiredAt, subs[j].expiredAt)
      ensures NoLater(Boundaries(Expiries(subs))[i], Boundaries(Expiries(subs))[j])
    {
      BoundariesKeepOrder(subs[i].expiredAt, subs[j].expiredAt);
    }
    DeductionOrderIsSoonestFirst(subs, Boundaries(Expiries(subs)), FirstBoundary(from));
  }

  const PACK := SubQuota(2, DataPack, 1, 0, None, None, 0)
  const LAPSING_PRIMARY := SubQuota(1, Primary, 1, 0, Some(BUCKET_SIZE), None, 0)

  lemma PackGoesFirst()
    ensures Prepare([LAPSING_PRIMARY, PACK]) == [PACK, LAPSING_PRIMARY]
  {
    var arrived := [LAPSING_PRIMARY, PACK];
    DedupOfDistinct(arrived);
    hide Dedup;
    assert arrived[..1] == [LAPSING_PRIMARY] && arrived[..1][..0] == [];
    assert Sorted(arrived[..1]) == [LAPSING_PRIMARY];
    InsertPasses([LAPSING_PRIMARY], PACK);
    assert [LAPSING_PRIMARY][..0] == [] && Insert([], PACK) == [PACK];
  }

  lemma {:induction false} DedupOfDistinct(subs: seq<SubQuota>)
    requires DistinctIds(subs)
    ensures Dedup(subs) == subs
  {
    if subs != [] {
      DedupOfDistinct(subs[..|subs| - 1]);
    }
  }

  /**
    The sequence as shipped can lose traffic: a primary that lasts one bucket and a permanent
    pack hold one byte each. The pack goes first, so a byte in the first bucket takes it and a
    byte in the second overflows; charging the primary first would have covered both.
   */
  lemma PackFirstCanLose()
    ensures var subs := Prepare([LAPSING_PRIMARY, PACK]);
            exists run, plan :: Comparable(subs, 0, run, plan) && At(run, 0, BUCKET_SIZE) && !NoWorse(subs, run, plan)
  {
    PackGoesFirst();
    BeatenBy([PACK, LAPSING_PRIMARY], 0, 0, BUCKET_SIZE, 0, 1);
  }
}
