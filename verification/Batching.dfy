/**
  Flushes of one bucket: how a bucket's traffic is cut into calls, and how calls interleave,
  does not matter (internal/metering/ladder.go, internal/domain/quota.go).
 */
module Batching {
  import opened MachineInts
  import opened Waterfall
  import opened Buckets
  import opened Quota
  import opened Sequences
  import opened LadderSteps
  import opened LadderRuns

  /** What a run of calls bills in all; calls billing zero or less bill nothing. */
  function Billed(bs: seq<Int64>): nat {
    if bs == [] then 0 else Billed(bs[..|bs| - 1]) + Max(0, bs[|bs| - 1])
  }

  /** The user's entries after a run of calls for one bucket. */
  function FlushAll(subs: seq<SubQuota>, at: Instant, bs: seq<Int64>): (r: seq<SubQuota>)
    ensures |r| == |subs|
  {
    if bs == [] then subs else Flushed(FlushAll(subs, at, bs[..|bs| - 1]), bs[|bs| - 1], at)
  }

  /** The run's rows for one subscription, added up. */
  function RowTotal(subs: seq<SubQuota>, at: Instant, bs: seq<Int64>, id: Int64): int {
    if bs == [] then 0
    else RowTotal(subs, at, bs[..|bs| - 1], id)
         + RowAmount(AttributeRows(bs[|bs| - 1], FlushAll(subs, at, bs[..|bs| - 1]), at), id)
  }

  /** The bucket belongs to the current period of every subscription that can still absorb traffic there. */
  ghost predicate BucketCounts(subs: seq<SubQuota>, at: Instant) {
    forall i :: 0 <= i < |subs| && subs[i].ActiveAt(at) && subs[i].Room() > 0 ==>
      CountsTowardCurrentPeriod(at, subs[i].lastResetAt)
  }

  /** The entries once `total` bytes have been spent down the ladder at `at`. */
  function Drained(subs: seq<SubQuota>, at: Instant, total: nat): seq<SubQuota> {
    seq(|subs|, i requires 0 <= i < |subs| => Charge(subs[i], TakenFrom(subs, at, total, i)))
  }

  lemma ChargeNothing(s: SubQuota)
    ensures Charge(s, 0) == s
  {
  }

  lemma DrainedRooms(subs: seq<SubQuota>, at: Instant, total: nat)
    ensures Within(Shares(Rooms(subs), Expiries(subs), at, total), Rooms(subs))
    ensures Rooms(Drained(subs, at, total)) == Less(Rooms(subs), Shares(Rooms(subs), Expiries(subs), at, total))
    ensures Expiries(Drained(subs, at, total)) == Expiries(subs)
  {
    SharesWithin(Rooms(subs), Expiries(subs), at, total);
    forall i | 0 <= i < |subs|
      ensures Drained(subs, at, total)[i].Room() == subs[i].Room() - TakenFrom(subs, at, total, i)
    {
      assert Shares(Rooms(subs), Expiries(subs), at, total)[i] <= Rooms(subs)[i];
      ChargeIsExact(subs[i], TakenFrom(subs, at, total, i));
    }
  }

  /** One counted flush is one draining. */
  lemma FlushedIsDrained(subs: seq<SubQuota>, at: Instant, billed: Int64)
    requires DistinctIds(subs) && NonZeroIds(subs) && BucketCounts(subs, at)
    ensures Flushed(subs, billed, at) == Drained(subs, at, Max(0, billed))
  {
    FlushChargesShares(subs, billed, at);
    SharesWithin(Rooms(subs), Expiries(subs), at, Max(0, billed));
    forall i | 0 <= i < |subs|
      ensures Flushed(subs, billed, at)[i] == Drained(subs, at, Max(0, billed))[i]
    {
      assert !subs[i].ActiveAt(at) ==> Shares(Rooms(subs), Expiries(subs), at, Max(0, billed))[i] == 0;
      ChargeNothing(subs[i]);
    }
  }

  lemma ChargeTwice(s: SubQuota, x: nat, y: nat)
    ensures Charge(Charge(s, x), y) == Charge(s, x + y)
  {
    WrapAbsorbs(s.usedBytes + x, y);
    hide Wrap64;
  }

  /** Draining `b` and then `c` is draining `b + c`, entry by entry and in overflow. */
  lemma DrainedCompose(subs: seq<SubQuota>, at: Instant, b: nat, c: nat)
    ensures Drained(Drained(subs, at, b), at, c) == Drained(subs, at, b + c)
    ensures forall i :: 0 <= i < |subs| ==>
              TakenFrom(subs, at, b, i) + TakenFrom(Drained(subs, at, b), at, c, i) == TakenFrom(subs, at, b + c, i)
    ensures OverflowOf(subs, at, b) + OverflowOf(Drained(subs, at, b), at, c) == OverflowOf(subs, at, b + c)
  {
    hide Share, Uncovered, Shares, Less;
    var mid := Drained(subs, at, b);
    DrainedRooms(subs, at, b);
    SharesCompose(Rooms(subs), Expiries(subs), at, b, c, Rooms(mid));
    forall i | 0 <= i < |subs|
      ensures TakenFrom(subs, at, b, i) + TakenFrom(mid, at, c, i) == TakenFrom(subs, at, b + c, i)
      ensures Drained(mid, at, c)[i] == Drained(subs, at, b + c)[i]
    {
      ChargeTwice(subs[i], TakenFrom(subs, at, b, i), TakenFrom(mid, at, c, i));
    }
  }

  lemma DrainedStaysFlushable(subs: seq<SubQuota>, at: Instant, total: nat)
    requires DistinctIds(subs) && NonZeroIds(subs) && BucketCounts(subs, at)
    ensures DistinctIds(Drained(subs, at, total)) && NonZeroIds(Drained(subs, at, total))
    ensures BucketCounts(Drained(subs, at, total), at)
  {
    DrainedRooms(subs, at, total);
    forall i | 0 <= i < |subs| && Drained(subs, at, total)[i].Room() > 0
      ensures subs[i].Room() > 0
    {
      assert Rooms(Drained(subs, at, total))[i] <= Rooms(subs)[i];
    }
  }

  lemma OneMoreFlush(subs: seq<SubQuota>, at: Instant, total: nat, b: Int64)
    requires DistinctIds(subs) && NonZeroIds(subs) && BucketCounts(subs, at)
    ensures Flushed(Drained(subs, at, total), b, at) == Drained(subs, at, total + Max(0, b))
  {
    hide Drained, Flushed;
    DrainedStaysFlushable(subs, at, total);
    FlushedIsDrained(Drained(subs, at, total), at, b);
    DrainedCompose(subs, at, total, Max(0, b));
  }

  lemma AmountOfEntry(subs: seq<SubQuota>, at: Instant, b: Int64, i: nat)
    requires DistinctIds(subs) && NonZeroIds(subs) && i < |subs|
    ensures RowAmount(AttributeRows(b, subs, at), subs[i].id) == TakenFrom(subs, at, Max(0, b), i)
    ensures RowAmount(AttributeRows(b, subs, at), OVERFLOW_SUBSCRIPTION_ID) == OverflowOf(subs, at, Max(0, b))
  {
    AttributeIsGreedy(b, subs, at);
    assert Amounts(AttributeRows(b, subs, at), subs)[i] == Shares(Rooms(subs), Expiries(subs), at, Max(0, b))[i];
  }

  /** After `total` bytes, one more call takes from each entry what brings it to `total` plus the call. */
  lemma OneMoreSplit(subs: seq<SubQuota>, at: Instant, total: nat, b: Int64)
    requires DistinctIds(subs) && NonZeroIds(subs) && BucketCounts(subs, at)
    ensures var rows := AttributeRows(b, Drained(subs, at, total), at);
            && (forall i :: 0 <= i < |subs| ==>
                  RowAmount(rows, subs[i].id) == TakenFrom(subs, at, total + Max(0, b), i) - TakenFrom(subs, at, total, i))
            && RowAmount(rows, OVERFLOW_SUBSCRIPTION_ID)
               == OverflowOf(subs, at, total + Max(0, b)) - OverflowOf(subs, at, total)
  {
    var mid := Drained(subs, at, total);
    DrainedStaysFlushable(subs, at, total);
    DrainedCompose(subs, at, total, Max(0, b));
    AttributeIsGreedy(b, mid, at);
    forall i | 0 <= i < |subs|
      ensures RowAmount(AttributeRows(b, mid, at), subs[i].id) == TakenFrom(mid, at, Max(0, b), i)
    {
      assert mid[i].id == subs[i].id;
      AmountOfEntry(mid, at, b, i);
    }
  }

  /** What a drained total leaves over is what exceeds the cover. */
  lemma OverflowIsExcess(subs: seq<SubQuota>, at: Instant, total: nat)
    ensures OverflowOf(subs, at, total) == Max(0, total - Cover(subs, at, |subs|))
  {
  }

  /**
    Only the sum counts: after any list of calls for one bucket, the entries, each
    subscription's row total and the overflow are those of draining the sum once.
   */
  lemma {:induction false} BatchesAddUp(subs: seq<SubQuota>, at: Instant, bs: seq<Int64>)
    requires DistinctIds(subs) && NonZeroIds(subs) && BucketCounts(subs, at)
    ensures FlushAll(subs, at, bs) == Drained(subs, at, Billed(bs))
    ensures forall i :: 0 <= i < |subs| ==> RowTotal(subs, at, bs, subs[i].id) == TakenFrom(subs, at, Billed(bs), i)
    ensures RowTotal(subs, at, bs, OVERFLOW_SUBSCRIPTION_ID) == OverflowOf(subs, at, Billed(bs))
    decreases |bs|
  {
    hide Flushed, Drained, OverflowOf, TakenFrom, AttributeRows;
    if bs == [] {
      DrainNothing(subs, at);
      NothingTaken(subs, at);
    } else {
      var init := bs[..|bs| - 1];
      BatchesAddUp(subs, at, init);
      OneMoreFlush(subs, at, Billed(init), bs[|bs| - 1]);
      OneMoreSplit(subs, at, Billed(init), bs[|bs| - 1]);
    }
  }

  lemma NothingTaken(subs: seq<SubQuota>, at: Instant)
    ensures forall i :: 0 <= i < |subs| ==> TakenFrom(subs, at, 0, i) == 0
    ensures OverflowOf(subs, at, 0) == 0
  {
  }

  lemma DrainNothing(subs: seq<SubQuota>, at: Instant)
    ensures Drained(subs, at, 0) == subs
  {
  }

  /** Any two ways to cut the same sum into calls, and any two orders of the calls, agree. */
  lemma {:induction false} CutsAgree(subs: seq<SubQuota>, at: Instant, bs: seq<Int64>, cs: seq<Int64>)
    requires DistinctIds(subs) && NonZeroIds(subs) && BucketCounts(subs, at)
    requires Billed(bs) == Billed(cs)
    ensures FlushAll(subs, at, bs) == FlushAll(subs, at, cs)
    ensures forall i :: 0 <= i < |subs| ==> RowTotal(subs, at, bs, subs[i].id) == RowTotal(subs, at, cs, subs[i].id)
    ensures RowTotal(subs, at, bs, OVERFLOW_SUBSCRIPTION_ID) == RowTotal(subs, at, cs, OVERFLOW_SUBSCRIPTION_ID)
            == Max(0, Billed(bs) - Cover(subs, at, |subs|))
  {
    hide FlushAll, RowTotal, TakenFrom, OverflowOf, Drained, Billed, DistinctIds, NonZeroIds, BucketCounts;
    BatchesAddUp(subs, at, bs);
    BatchesAddUp(subs, at, cs);
    OverflowIsExcess(subs, at, Billed(bs));
  }

  lemma {:induction false} BilledRemove(bs: seq<Int64>, i: nat)
    requires i < |bs|
    ensures Billed(bs) == Billed(bs[..i] + bs[i + 1..]) + Max(0, bs[i])
  {
    var n := |bs| - 1;
    if i < n {
      BilledRemove(bs[..n], i);
      var rest := bs[..i] + bs[i + 1..];
      assert rest[..|rest| - 1] == bs[..n][..i] + bs[..n][i + 1..];
    } else {
      assert bs[..i] + bs[i + 1..] == bs[..n];
    }
  }

  lemma {:induction false} BilledPermuted(bs: seq<Int64>, cs: seq<Int64>)
    requires multiset(bs) == multiset(cs)
    ensures Billed(bs) == Billed(cs)
    decreases |bs|
  {
    MultisetLength(bs, cs);
    if bs != [] {
      var i := MultisetMember(bs, cs, |bs| - 1);
      BilledRemove(cs, i);
      RemoveOne(bs, cs, i);
      BilledPermuted(bs[..|bs| - 1], cs[..i] + cs[i + 1..]);
    }
  }

  // ----- interleavings of many users' calls

  ghost predicate FlushesOf(ops: seq<Op>, at: Instant) {
    forall i :: 0 <= i < |ops| ==> ops[i].Attribute? && ops[i].bucketAt == at
  }

  /** The amounts of the calls that are for `user`, in order. */
  function Mine(ops: seq<Op>, user: Int64): seq<Int64> {
    if ops == [] then []
    else
      var op := ops[|ops| - 1];
      Mine(ops[..|ops| - 1], user) + if op.Attribute? && op.user == user then [op.billed] else []
  }

  /** The rows the run emits for one of a user's subscriptions, or for overflow, added up. */
  function EmittedTotal(m: Ladders, ops: seq<Op>, user: Int64, id: Int64): int {
    if ops == [] then 0
    else
      var init, op := ops[..|ops| - 1], ops[|ops| - 1];
      EmittedTotal(m, init, user, id) + if op.user == user then RowAmount(Emitted(Run(m, init), op), id) else 0
  }

  lemma {:induction false} FlushAllAppend(subs: seq<SubQuota>, at: Instant, bs: seq<Int64>, b: Int64)
    ensures FlushAll(subs, at, bs + [b]) == Flushed(FlushAll(subs, at, bs), b, at)
  {
  }

  lemma {:induction false} LastStep(m: Ladders, ops: seq<Op>, user: Int64)
    requires ops != [] && ops[|ops| - 1].Attribute?
    ensures var before, op := Run(m, ops[..|ops| - 1]), ops[|ops| - 1];
            && (user in Run(m, ops) <==> user in before)
            && (user in before ==>
                  Run(m, ops)[user] == if op.user == user then Flushed(before[user], op.billed, op.bucketAt) else before[user])
  {
  }

  /** The user's set in `m` and after the run, as the user's own calls leave it. */
  ghost predicate Projects(m: Ladders, after: Ladders, ops: seq<Op>, at: Instant, user: Int64) {
    && (user in after <==> user in m)
    && (user in m ==> after[user] == FlushAll(m[user], at, Mine(ops, user)))
  }

  /** A user's set after an interleaved run is the one that user's own calls leave. */
  lemma {:induction false} RunProjects(m: Ladders, ops: seq<Op>, at: Instant, user: Int64)
    requires FlushesOf(ops, at)
    ensures Projects(m, Run(m, ops), ops, at, user)
    decreases |ops|
  {
    if ops != [] {
      var init, op := ops[..|ops| - 1], ops[|ops| - 1];
      RunProjects(m, init, at, user);
      LastStep(m, ops, user);
      ProjectsOne(m, Run(m, init), Run(m, ops), ops, at, user);
    }
  }

  lemma ProjectsOne(m: Ladders, before: Ladders, after: Ladders, ops: seq<Op>, at: Instant, user: Int64)
    requires ops != [] && ops[|ops| - 1].Attribute? && ops[|ops| - 1].bucketAt == at
    requires Projects(m, before, ops[..|ops| - 1], at, user)
    requires user in after <==> user in before
    requires user in before ==>
               after[user] == if ops[|ops| - 1].user == user then Flushed(before[user], ops[|ops| - 1].billed, at)
                              else before[user]
    ensures Projects(m, after, ops, at, user)
  {
    hide Flushed;
    if user in m {
      var mine := Mine(ops[..|ops| - 1], user);
      FlushAllAppend(m[user], at, mine, ops[|ops| - 1].billed);
      assert mine + [] == mine;
    }
  }

  lemma {:induction false} RowTotalAppend(subs: seq<SubQuota>, at: Instant, bs: seq<Int64>, b: Int64, id: Int64)
    ensures RowTotal(subs, at, bs + [b], id)
         == RowTotal(subs, at, bs, id) + RowAmount(AttributeRows(b, FlushAll(subs, at, bs), at), id)
  {
    assert (bs + [b])[..|bs|] == bs;
  }

  /** The rows a user's calls emit in an interleaved run are those they emit on their own. */
  lemma {:induction false} EmittedIsRowTotal(m: Ladders, ops: seq<Op>, at: Instant, user: Int64, id: Int64)
    requires FlushesOf(ops, at) && user in m
    ensures EmittedTotal(m, ops, user, id) == RowTotal(m[user], at, Mine(ops, user), id)
    decreases |ops|
  {
    if ops != [] {
      hide AttributeRows, FlushAll, RowAmount, Run, RowTotal;
      var init, op := ops[..|ops| - 1], ops[|ops| - 1];
      EmittedIsRowTotal(m, init, at, user, id);
      RunProjects(m, init, at, user);
      if op.user == user {
        RowTotalAppend(m[user], at, Mine(init, user), op.billed, id);
        EmittedForHeld(Run(m, init), op);
      } else {
        assert Mine(init, user) + [] == Mine(init, user);
      }
    } else {
      NoCallsNoRows(m, at, user, id);
    }
  }

  lemma {:induction false} NoCallsNoRows(m: Ladders, at: Instant, user: Int64, id: Int64)
    requires user in m
    ensures RowTotal(m[user], at, [], id) == 0
  {
  }

  /** A user nobody has heard of overflows everything billed. */
  lemma {:induction false} EmittedForUnknown(m: Ladders, ops: seq<Op>, at: Instant, user: Int64, id: Int64)
    requires FlushesOf(ops, at) && user !in m
    ensures EmittedTotal(m, ops, user, id) == if id == OVERFLOW_SUBSCRIPTION_ID then Billed(Mine(ops, user)) else 0
    decreases |ops|
  {
    if ops != [] {
      hide Run;
      var init, op := ops[..|ops| - 1], ops[|ops| - 1];
      EmittedForUnknown(m, init, at, user, id);
      RunProjects(m, init, at, user);
      if op.user == user {
        BilledAppend(Mine(init, user), op.billed);
      } else {
        assert Mine(init, user) + [] == Mine(init, user);
      }
    }
  }

  lemma {:induction false} BilledAppend(bs: seq<Int64>, b: Int64)
    ensures Billed(bs + [b]) == Billed(bs) + Max(0, b)
  {
    assert (bs + [b])[..|bs|] == bs;
  }

  /** No row is ever written for a subscription the set does not hold. */
  lemma {:induction false} RowTotalAbsent(subs: seq<SubQuota>, at: Instant, bs: seq<Int64>, id: Int64)
    requires DistinctIds(subs) && NonZeroIds(subs) && BucketCounts(subs, at)
    requires id != OVERFLOW_SUBSCRIPTION_ID && forall i :: 0 <= i < |subs| ==> subs[i].id != id
    ensures RowTotal(subs, at, bs, id) == 0
    decreases |bs|
  {
    if bs != [] {
      hide AttributeRows, BucketCounts, Billed;
      var init := bs[..|bs| - 1];
      RowTotalAbsent(subs, at, init, id);
      BatchesAddUp(subs, at, init);
      RowsNameEntries(bs[|bs| - 1], FlushAll(subs, at, init), at, id);
    }
  }

  /** The same amounts in any order make the same rows for every subscription, held or not. */
  lemma {:induction false} RowTotalsPermuted(subs: seq<SubQuota>, at: Instant, bs: seq<Int64>, cs: seq<Int64>, id: Int64)
    requires DistinctIds(subs) && NonZeroIds(subs) && BucketCounts(subs, at) && multiset(bs) == multiset(cs)
    ensures RowTotal(subs, at, bs, id) == RowTotal(subs, at, cs, id)
  {
    BilledPermuted(bs, cs);
    CutsAgree(subs, at, bs, cs);
    if id != OVERFLOW_SUBSCRIPTION_ID && forall i :: 0 <= i < |subs| ==> subs[i].id != id {
      RowTotalAbsent(subs, at, bs, id);
      RowTotalAbsent(subs, at, cs, id);
    }
  }

  /**
    Every interleaving of the same calls for one bucket, from any number of workers, leaves
    the same ladders and writes the same row totals, overflow included: it is enough that
    each user is billed the same amounts in some order.
   */
  lemma {:induction false} InterleavingsAgree(m: Ladders, at: Instant, a: seq<Op>, b: seq<Op>)
    requires FlushesOf(a, at) && FlushesOf(b, at)
    requires forall user :: user in m ==> DistinctIds(m[user]) && NonZeroIds(m[user]) && BucketCounts(m[user], at)
    requires forall user :: user in m ==> multiset(Mine(a, user)) == multiset(Mine(b, user))
    ensures Run(m, a) == Run(m, b)
    ensures forall user: Int64, id: Int64 :: user in m || multiset(Mine(a, user)) == multiset(Mine(b, user)) ==>
              EmittedTotal(m, a, user, id) == EmittedTotal(m, b, user, id)
  {
    SameLadders(m, at, a, b);
    forall user: Int64, id: Int64 | user in m || multiset(Mine(a, user)) == multiset(Mine(b, user))
      ensures EmittedTotal(m, a, user, id) == EmittedTotal(m, b, user, id)
    {
      if user in m {
        EmittedIsRowTotal(m, a, at, user, id);
        EmittedIsRowTotal(m, b, at, user, id);
        RowTotalsPermuted(m[user], at, Mine(a, user), Mine(b, user), id);
      } else {
        EmittedForUnknown(m, a, at, user, id);
        EmittedForUnknown(m, b, at, user, id);
        BilledPermuted(Mine(a, user), Mine(b, user));
      }
    }
  }

  lemma {:induction false} SameLadders(m: Ladders, at: Instant, a: seq<Op>, b: seq<Op>)
    requires FlushesOf(a, at) && FlushesOf(b, at)
    requires forall user :: user in m ==> DistinctIds(m[user]) && NonZeroIds(m[user]) && BucketCounts(m[user], at)
    requires forall user :: user in m ==> multiset(Mine(a, user)) == multiset(Mine(b, user))
    ensures Run(m, a) == Run(m, b)
  {
    forall user: Int64
      ensures user in Run(m, a) <==> user in Run(m, b)
      ensures user in Run(m, a) ==> Run(m, a)[user] == Run(m, b)[user]
    {
      RunProjects(m, a, at, user);
      RunProjects(m, b, at, user);
      if user in m {
        BilledPermuted(Mine(a, user), Mine(b, user));
        CutsAgree(m[user], at, Mine(a, user), Mine(b, user));
      }
    }
  }

  // ----- when cutting matters

  lemma FlushKeepsIds(subs: seq<SubQuota>, billed: Int64, at: Instant)
    requires DistinctIds(subs) && NonZeroIds(subs)
    ensures DistinctIds(Flushed(subs, billed, at)) && NonZeroIds(Flushed(subs, billed, at))
  {
    FlushChargesShares(subs, billed, at);
  }

  /** An entry with room for which the bucket does not count. */
  ghost predicate Uncounted(s: SubQuota, at: Instant) {
    s.ActiveAt(at) && s.Room() > 0 && !CountsTowardCurrentPeriod(at, s.lastResetAt)
  }

  lemma UncountedKeepsCover(subs: seq<SubQuota>, at: Instant, i: nat)
    requires DistinctIds(subs) && NonZeroIds(subs) && i < |subs| && Uncounted(subs[i], at)
    ensures Flushed(subs, 1, at)[i] == subs[i]
    ensures RowAmount(AttributeRows(1, subs, at), OVERFLOW_SUBSCRIPTION_ID) == 0
  {
    FlushChargesShares(subs, 1, at);
    AttributeIsGreedy(1, subs, at);
    CoverPositive(subs, at, |subs|);
    OverflowIsExcess(subs, at, 1);
  }

  function Ones(n: nat): (bs: seq<Int64>)
    ensures |bs| == n
  {
    seq(n, _ => 1)
  }

  lemma {:induction false} UncountedNeverOverflows(subs: seq<SubQuota>, at: Instant, i: nat, n: nat)
    requires DistinctIds(subs) && NonZeroIds(subs) && i < |subs| && Uncounted(subs[i], at)
    ensures FlushAll(subs, at, Ones(n))[i] == subs[i]
    ensures DistinctIds(FlushAll(subs, at, Ones(n))) && NonZeroIds(FlushAll(subs, at, Ones(n)))
    ensures RowTotal(subs, at, Ones(n), OVERFLOW_SUBSCRIPTION_ID) == 0 && Billed(Ones(n)) == n
  {
    hide Flushed, AttributeRows, Uncounted, DistinctIds, NonZeroIds, RowAmount;
    if n > 0 {
      UncountedNeverOverflows(subs, at, i, n - 1);
      assert Ones(n)[..n - 1] == Ones(n - 1);
      var before := FlushAll(subs, at, Ones(n - 1));
      FlushKeepsIds(before, 1, at);
      UncountedKeepsCover(before, at, i);
    }
  }

  /** A list of calls overflows by as much as its sum does. */
  ghost predicate OverflowsLikeSum(subs: seq<SubQuota>, at: Instant, bs: seq<Int64>) {
    RowTotal(subs, at, bs, OVERFLOW_SUBSCRIPTION_ID) == OverflowOf(subs, at, Billed(bs))
  }

  lemma UncountedCutsDiffer(subs: seq<SubQuota>, at: Instant, i: nat)
    requires DistinctIds(subs) && NonZeroIds(subs) && i < |subs| && Uncounted(subs[i], at)
    ensures exists bs :: !OverflowsLikeSum(subs, at, bs)
  {
    var n := Cover(subs, at, |subs|) + 1;
    UncountedNeverOverflows(subs, at, i, n);
    OverflowIsExcess(subs, at, n);
    assert !OverflowsLikeSum(subs, at, Ones(n));
  }

  /**
    Exactly when cutting is harmless: every list of calls overflows like its sum if and only
    if no subscription that can still absorb traffic in the bucket was reset after it. A late
    bucket leaves the counter alone, so each call is offered the same room again.
   */
  lemma CuttingIsHarmlessIff(subs: seq<SubQuota>, at: Instant)
    requires DistinctIds(subs) && NonZeroIds(subs)
    ensures (forall bs :: OverflowsLikeSum(subs, at, bs)) <==> BucketCounts(subs, at)
  {
    if BucketCounts(subs, at) {
      forall bs: seq<Int64>
        ensures OverflowsLikeSum(subs, at, bs)
      {
        BatchesAddUp(subs, at, bs);
      }
    } else {
      var i :| 0 <= i < |subs| && Uncounted(subs[i], at);
      UncountedCutsDiffer(subs, at, i);
    }
  }

  // ----- entitlement along a run

  lemma DrainedCover(subs: seq<SubQuota>, at: Instant, total: nat)
    ensures Cover(Drained(subs, at, total), at, |subs|) == Max(0, Cover(subs, at, |subs|) - total)
  {
    hide Drained, Shares;
    DrainedRooms(subs, at, total);
    RestSum(Rooms(subs), Expiries(subs), at, total, |subs|);
  }

  lemma DrainedEntitled(subs: seq<SubQuota>, at: Instant, total: nat, i: nat)
    requires i < |subs| && ExactAllowance(subs[i])
    ensures var s := Drained(subs, at, total)[i]; s.Entitled(at) <==> s.ActiveAt(at) && s.Room() > 0
  {
  }

  /** Along counted flushes of one bucket, entitlement is lost exactly when the billed sum reaches what was available. */
  lemma {:induction false} EntitledUntilDrained(subs: seq<SubQuota>, at: Instant, bs: seq<Int64>)
    requires DistinctIds(subs) && NonZeroIds(subs) && BucketCounts(subs, at)
    requires forall i :: 0 <= i < |subs| ==> ExactAllowance(subs[i])
    ensures (exists i :: 0 <= i < |subs| && FlushAll(subs, at, bs)[i].Entitled(at))
       <==> Billed(bs) < Cover(subs, at, |subs|)
  {
    var after := Drained(subs, at, Billed(bs));
    BatchesAddUp(subs, at, bs);
    DrainedCover(subs, at, Billed(bs));
    CoverPositive(after, at, |after|);
    forall i | 0 <= i < |subs|
      ensures after[i].Entitled(at) <==> after[i].ActiveAt(at) && after[i].Room() > 0
    {
      DrainedEntitled(subs, at, Billed(bs), i);
    }
  }
}
