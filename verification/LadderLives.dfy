/**
  What a reset starts and a drop ends, over every run of calls (internal/metering/ladder.go):
  the counter of a period is the sum of the period's rows, and a user who is not held pays
  for nothing.
 */
module LadderLives {
  import opened MachineInts
  import opened Options
  import opened Waterfall
  import opened Buckets
  import opened Quota
  import opened LadderSteps
  import opened LadderRuns

  // ----- the period a reset starts

  ghost predicate BucketFlushes(flushes: seq<Op>) {
    forall i :: 0 <= i < |flushes| ==> flushes[i].Attribute? && flushes[i].bucketAt % BUCKET_SIZE == 0
  }

  /** The rows the run writes for a subscription in buckets that end after `resetAt`, added up. */
  function RowsSince(m: Ladders, flushes: seq<Op>, user: Int64, id: Int64, resetAt: Instant): int {
    if flushes == [] then 0
    else
      var init, op := flushes[..|flushes| - 1], flushes[|flushes| - 1];
      RowsSince(m, init, user, id, resetAt)
      + if op.Attribute? && op.user == user && op.bucketAt + BUCKET_SIZE > resetAt
        then RowAmount(Emitted(Run(m, init), op), id) else 0
  }

  lemma ResetRowCounts(held: seq<SubQuota>, billed: Int64, bucketAt: Instant, id: Int64, resetAt: Instant)
    requires Entry(held, id).Some? && Entry(held, id).value.lastResetAt == Some(AlignBucket(resetAt))
    requires bucketAt % BUCKET_SIZE == 0
    ensures RowCharge(held, billed, bucketAt, id)
         == if bucketAt + BUCKET_SIZE > resetAt then RowAmount(AttributeRows(billed, held, bucketAt), id) else 0
  {
    hide AttributeRows, RowAmount;
    AlignBucketIdempotentMonotone(resetAt, resetAt);
    CountsIffEndsAfterReset(bucketAt, Some(resetAt));
  }

  lemma {:induction false} CounterFollowsRows(m: Ladders, flushes: seq<Op>, user: Int64, id: Int64, resetAt: Instant)
    requires AllPrepared(m) && id != OVERFLOW_SUBSCRIPTION_ID && BucketFlushes(flushes)
    requires Find(m, user, id).Some? && Find(m, user, id).value.lastResetAt == Some(AlignBucket(resetAt))
    ensures AllPrepared(Run(m, flushes))
    ensures var before, after := Find(m, user, id), Find(Run(m, flushes), user, id);
            && after.Some?
            && after.value.usedBytes == before.value.usedBytes + RowsSince(m, flushes, user, id, resetAt)
            && after.value == before.value.(usedBytes := after.value.usedBytes)
  {
    hide Flushed, Entry, AlignBucket, Prepared, RowCharge, AttributeRows, RowAmount;
    if flushes != [] {
      var init, op := flushes[..|flushes| - 1], flushes[|flushes| - 1];
      CounterFollowsRows(m, init, user, id, resetAt);
      var mid := Run(m, init);
      StepKeepsPrepared(mid, op);
      HeldIsPrepared(mid, user);
      if op.user == user {
        EntryNeedsUser(mid, user, id);
        EmittedForHeld(mid, op);
        FlushMovesEntry(Held(mid, user), op.billed, op.bucketAt, id);
        ResetRowCounts(Held(mid, user), op.billed, op.bucketAt, id, resetAt);
      }
    }
  }

  lemma HeldIsPrepared(m: Ladders, user: Int64)
    requires AllPrepared(m)
    ensures Prepared(Held(m, user)) && DistinctIds(Held(m, user))
  {
  }

  lemma EntryNeedsUser(m: Ladders, user: Int64, id: Int64)
    requires Find(m, user, id).Some?
    ensures user in m
  {
  }

  /**
    A reset on a reachable ladder starts a new period: through any run of flushes of any
    users and buckets, in order or not, the counter is the sum of the rows written for the
    subscription in buckets that end after the reset, and those before it never move it. The
    epoch and the aligned instant are recorded, and nothing else changes.
   */
  lemma {:induction false} ResetStartsPeriod(ops: seq<Op>, user: Int64, id: Int64, epoch: Int32, resetAt: Instant, flushes: seq<Op>)
    requires id != OVERFLOW_SUBSCRIPTION_ID && Find(After(ops, |ops|), user, id).Some? && BucketFlushes(flushes)
    ensures var m := Step(After(ops, |ops|), Op.Reset(user, id, epoch, resetAt));
            var before, after := Find(After(ops, |ops|), user, id), Find(Run(m, flushes), user, id);
            && after.Some?
            && after.value.usedBytes == RowsSince(m, flushes, user, id, resetAt)
            && after.value.resetEpoch == epoch
            && after.value.lastResetAt == Some(AlignBucket(resetAt))
            && after.value == before.value.(usedBytes := after.value.usedBytes, resetEpoch := epoch,
                                            lastResetAt := after.value.lastResetAt)
  {
    hide Run, RowsSince, Entry, NextSet, AlignBucket, Prepared;
    var m := After(ops, |ops|);
    var op := Op.Reset(user, id, epoch, resetAt);
    ReachablePrepared(ops, |ops|);
    StepKeepsPrepared(m, op);
    ReplacingCalls(Held(m, user), op, id);
    EntryNeedsUser(m, user, id);
    CounterFollowsRows(Step(m, op), flushes, user, id, resetAt);
  }

  // ----- who is held

  predicate BringsIn(op: Op, user: Int64) {
    (op.Rebuild? || op.Sync?) && op.user == user
  }

  /** Call `k` brought the user in, and no later one dropped them. */
  ghost predicate HeldSince(ops: seq<Op>, k: nat, user: Int64)
    requires k < |ops|
  {
    BringsIn(ops[k], user) && forall j :: k < j < |ops| ==> ops[j] != Op.Drop(user)
  }

  lemma StepHolds(m: Ladders, op: Op, user: Int64)
    ensures user in Step(m, op) <==> BringsIn(op, user) || (user in m && op != Op.Drop(user))
  {
  }

  /** After any run a user is held exactly if a `Rebuild` or `Sync` brought them in and no `Drop` came later. */
  lemma {:induction false} HeldIff(ops: seq<Op>, user: Int64)
    ensures user in After(ops, |ops|) <==> exists k :: 0 <= k < |ops| && HeldSince(ops, k, user)
    decreases |ops|
  {
    hide Step;
    if ops != [] {
      var n := |ops| - 1;
      var init, op := ops[..n], ops[n];
      assert init + [op] == ops;
      AfterPrefix(init, op, n);
      HeldIff(init, user);
      StepHolds(After(ops, n), op, user);
      if BringsIn(op, user) {
        assert HeldSince(ops, n, user);
      } else if user in After(ops, n) && op != Op.Drop(user) {
        var k :| 0 <= k < n && HeldSince(init, k, user);
        assert HeldSince(ops, k, user);
      } else {
        forall k | 0 <= k < |ops|
          ensures !HeldSince(ops, k, user)
        {
          assert HeldSince(ops, k, user) && k < n ==> HeldSince(init, k, user);
        }
      }
    }
  }

  /**
    Once dropped, a user has nothing until a `Rebuild` or `Sync` brings them back: nothing is
    held, and every flush of theirs is one overflow row.
   */
  lemma {:induction false} DroppedPaysForNothing(ops: seq<Op>, k: nat, user: Int64, billed: Int64, bucketAt: Instant)
    requires k < |ops| && ops[k] == Op.Drop(user) && forall j :: k < j < |ops| ==> !BringsIn(ops[j], user)
    requires billed > 0
    ensures var m := After(ops, |ops|);
            && Held(m, user) == []
            && Emitted(m, Op.Attribute(user, billed, bucketAt)) == [LedgerRow(0, billed)]
            && Step(m, Op.Attribute(user, billed, bucketAt)) == m
  {
    HeldIff(ops, user);
    forall i | 0 <= i < |ops|
      ensures !HeldSince(ops, i, user)
    {
      assert i < k ==> ops[k] == Op.Drop(user);
    }
  }

  /** `Rebuild` holds exactly what it is given, counters included, whatever was held before. */
  lemma {:induction false} RebuildInstallsGiven(ops: seq<Op>, user: Int64, subs: seq<SubQuota>, id: Int64)
    ensures Find(Step(After(ops, |ops|), Op.Rebuild(user, subs)), user, id) == Entry(subs, id)
  {
    PrepareKeepsFirst(subs, id);
  }

  /** `Reconcile` puts the given value on one counter of a held subscription and changes nothing else. */
  lemma {:induction false} ReconcileSetsCounter(ops: seq<Op>, user: Int64, id: Int64, usedBytes: Int64, other: Int64)
    ensures var before := Find(After(ops, |ops|), user, other);
            Find(Step(After(ops, |ops|), Op.Reconcile(user, id, usedBytes)), user, other)
            == if other == id && before.Some? then Some(before.value.(usedBytes := usedBytes)) else before
  {
    var m := After(ops, |ops|);
    ReplacingCalls(Held(m, user), Op.Reconcile(user, id, usedBytes), other);
  }
}
