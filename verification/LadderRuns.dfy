/** What holds of the ladder over every run of calls from the empty ladder (internal/metering/ladder.go). */
module LadderRuns {
  import opened MachineInts
  import opened Options
  import opened Waterfall
  import opened Buckets
  import opened Quota
  import opened LadderSteps

  /** The ladders after the first `k` calls. */
  function After(ops: seq<Op>, k: nat): Ladders
    requires k <= |ops|
  {
    if k == 0 then map[] else Step(After(ops, k - 1), ops[k - 1])
  }

  lemma {:induction false} ReachablePrepared(ops: seq<Op>, k: nat)
    requires k <= |ops|
    ensures AllPrepared(After(ops, k))
  {
    if k > 0 {
      ReachablePrepared(ops, k - 1);
      StepKeepsPrepared(After(ops, k - 1), ops[k - 1]);
    }
  }

  function Find(m: Ladders, user: Int64, id: Int64): Option<SubQuota> {
    Entry(Held(m, user), id)
  }

  /**
    The counter value a call of the user's own installs for a subscription, if it installs
    one: a `Rebuild` always does, a `Sync` only for a subscription it brings in, a
    `Reconcile` and a `Reset` only for one that is held.
   */
  function InstallsIn(held: seq<SubQuota>, op: Op, id: Int64): Option<Int64> {
    match op
    case Rebuild(_, subs) =>
      var s := Entry(subs, id);
      if s.Some? then Some(s.value.usedBytes) else None
    case Sync(_, subs) =>
      var s := Entry(subs, id);
      if s.Some? && Entry(held, id).None? then Some(s.value.usedBytes) else None
    case Reconcile(_, i, usedBytes) => if i == id && Entry(held, id).Some? then Some(usedBytes) else None
    case Reset(_, i, _, _) => if i == id && Entry(held, id).Some? then Some(0) else None
    case Attribute(_, _, _) => None
    case Drop(_) => None
  }

  function Installs(m: Ladders, op: Op, user: Int64, id: Int64): Option<Int64> {
    if op.user == user then InstallsIn(Held(m, user), op, id) else None
  }

  /** What the ledger rows a call emits say against the subscription's current period. */
  function LedgerCharge(m: Ladders, op: Op, user: Int64, id: Int64): int {
    var s := Find(m, user, id);
    if op.Attribute? && op.user == user && s.Some? && CountsTowardCurrentPeriod(op.bucketAt, s.value.lastResetAt)
    then RowAmount(Emitted(m, op), id) else 0
  }

  /** The ledger rows of calls `from` up to `end` that count for the subscription. */
  function LedgerSum(ops: seq<Op>, from: nat, end: nat, user: Int64, id: Int64): int
    requires from <= end <= |ops|
    decreases end
  {
    if from == end then 0
    else LedgerSum(ops, from, end - 1, user, id) + LedgerCharge(After(ops, end - 1), ops[end - 1], user, id)
  }

  lemma EntryAbsent(subs: seq<SubQuota>, id: Int64)
    requires forall i :: 0 <= i < |subs| ==> subs[i].id != id
    ensures Entry(subs, id) == None
  {
  }

  /** What the row a flush of `subs` emits for `id` says against that entry's current period. */
  function RowCharge(subs: seq<SubQuota>, billed: Int64, bucketAt: Instant, id: Int64): int {
    var s := Entry(subs, id);
    if s.Some? && CountsTowardCurrentPeriod(bucketAt, s.value.lastResetAt)
    then RowAmount(AttributeRows(billed, subs, bucketAt), id) else 0
  }

  /** The entry a flush leaves for an ID: its own row is charged to it, exactly and within its allowance. */
  lemma FlushMovesEntry(subs: seq<SubQuota>, billed: Int64, bucketAt: Instant, id: Int64)
    requires DistinctIds(subs) && id != OVERFLOW_SUBSCRIPTION_ID
    ensures var before, after := Entry(subs, id), Entry(Flushed(subs, billed, bucketAt), id);
            && (after.Some? <==> before.Some?)
            && (after.Some? ==>
                  && FitsInt64(before.value.usedBytes + RowCharge(subs, billed, bucketAt, id))
                  && after.value == before.value.(usedBytes := before.value.usedBytes + RowCharge(subs, billed, bucketAt, id))
                  && after.value.usedBytes <= Max(before.value.usedBytes, before.value.transferBytes))
  {
    var after := Flushed(subs, billed, bucketAt);
    FlushChargesShares(subs, billed, bucketAt);
    var i := EntryIndex(subs, id);
    if i < |subs| {
      EntryIsFirst(after, id, i);
      AttributeTotals(billed, subs, bucketAt, id);
      TakenForDistinct(subs, bucketAt, Max(0, billed), i, |subs|);
      ChargeIsExact(subs[i], TakenFrom(subs, bucketAt, Max(0, billed), i));
    } else {
      EntryAbsent(after, id);
    }
  }

  lemma CarriedEntry(subs: seq<SubQuota>, held: seq<SubQuota>, id: Int64)
    ensures Entry(CarryCounters(subs, held), id)
         == if Entry(subs, id).Some? then Some(Carried(Entry(subs, id).value, held)) else None
  {
    var i := EntryIndex(subs, id);
    if i < |subs| {
      EntryIsFirst(CarryCounters(subs, held), id, i);
    } else {
      EntryAbsent(CarryCounters(subs, held), id);
    }
  }

  /** Replacing the entry of one ID leaves every other ID's entry alone. */
  lemma ReplacedEntry(subs: seq<SubQuota>, i: nat, s: SubQuota, id: Int64)
    requires i < |subs| && s.id == subs[i].id && i == EntryIndex(subs, s.id)
    ensures Entry(subs[i := s], id) == if id == s.id then Some(s) else Entry(subs, id)
  {
    var j := EntryIndex(subs, id);
    if j < |subs| {
      EntryIsFirst(subs[i := s], id, j);
    } else {
      EntryAbsent(subs[i := s], id);
    }
  }

  lemma InstallingCalls(held: seq<SubQuota>, op: Op, id: Int64)
    requires op.Rebuild? || op.Sync?
    ensures Entry(NextSet(held, op), id)
         == if op.Rebuild? || Entry(op.subs, id).None? then Entry(op.subs, id)
            else Some(Carried(Entry(op.subs, id).value, held))
  {
    PrepareKeepsFirst(op.subs, id);
    CarriedEntry(Prepare(op.subs), held, id);
  }

  lemma ReplacingCalls(held: seq<SubQuota>, op: Op, id: Int64)
    requires op.Reconcile? || op.Reset?
    ensures Entry(NextSet(held, op), id)
         == if id != op.id || Entry(held, id).None? then Entry(held, id)
            else if op.Reconcile? then Some(Entry(held, id).value.(usedBytes := op.usedBytes))
            else Some(ResetEntry(Entry(held, id).value, op.epoch, op.resetAt))
  {
    var k := EntryIndex(held, op.id);
    if k < |held| {
      ReplacedEntry(held, k, NextSet(held, op)[k], id);
    }
  }

  lemma SetMovesCounter(held: seq<SubQuota>, op: Op, id: Int64)
    requires DistinctIds(held) && id != OVERFLOW_SUBSCRIPTION_ID
    ensures InstallsIn(held, op, id).Some? ==>
              Entry(NextSet(held, op), id).Some? && Entry(NextSet(held, op), id).value.usedBytes == InstallsIn(held, op, id).value
    ensures InstallsIn(held, op, id).None? && Entry(NextSet(held, op), id).Some? ==>
              && Entry(held, id).Some?
              && Entry(NextSet(held, op), id).value.usedBytes
              == Entry(held, id).value.usedBytes + if op.Attribute? then RowCharge(held, op.billed, op.bucketAt, id) else 0
  {
    if op.Rebuild? || op.Sync? {
      InstallingCalls(held, op, id);
    } else if op.Attribute? {
      FlushMovesEntry(held, op.billed, op.bucketAt, id);
    } else if op.Reconcile? || op.Reset? {
      ReplacingCalls(held, op, id);
    }
  }

  /** The rows of a held user are those of the split, so the ledger's charge is the row's. */
  lemma LedgerChargeIsRowCharge(m: Ladders, op: Op, user: Int64, id: Int64)
    requires op.Attribute? && op.user == user && user in m
    ensures LedgerCharge(m, op, user, id) == RowCharge(m[user], op.billed, op.bucketAt, id)
  {
  }

  /**
    One call moves one counter in one of three ways: it installs a value, it adds what the
    rows it emits say against the current period, or it leaves the counter alone.
   */
  lemma StepMovesCounter(m: Ladders, op: Op, user: Int64, id: Int64)
    requires AllPrepared(m) && id != OVERFLOW_SUBSCRIPTION_ID
    ensures Installs(m, op, user, id).Some? ==>
              && Find(Step(m, op), user, id).Some?
              && Find(Step(m, op), user, id).value.usedBytes == Installs(m, op, user, id).value
    ensures Installs(m, op, user, id).None? && Find(Step(m, op), user, id).Some? ==>
              && Find(m, user, id).Some?
              && Find(Step(m, op), user, id).value.usedBytes
              == Find(m, user, id).value.usedBytes + LedgerCharge(m, op, user, id)
  {
    if op.user == user {
      SetMovesCounter(Held(m, user), op, id);
      if op.Attribute? && user in m {
        LedgerChargeIsRowCharge(m, op, user, id);
      }
    }
  }

  /** Call `k` installs the counter, and no later call does; the subscription is held ever since. */
  ghost predicate LastInstall(ops: seq<Op>, k: nat, user: Int64, id: Int64)
    requires k < |ops|
  {
    && Installs(After(ops, k), ops[k], user, id).Some?
    && forall j :: k < j < |ops| ==>
         Installs(After(ops, j), ops[j], user, id).None? && Find(After(ops, j), user, id).Some?
  }

  lemma {:induction false} LedgerSumPrefix(ops: seq<Op>, op: Op, from: nat, end: nat, user: Int64, id: Int64)
    requires from <= end <= |ops|
    ensures LedgerSum(ops + [op], from, end, user, id) == LedgerSum(ops, from, end, user, id)
    decreases end
  {
    if from < end {
      LedgerSumPrefix(ops, op, from, end - 1, user, id);
      AfterPrefix(ops, op, end - 1);
    }
  }

  lemma {:induction false} AfterPrefix(ops: seq<Op>, op: Op, k: nat)
    requires k <= |ops|
    ensures After(ops + [op], k) == After(ops, k)
  {
    if k > 0 {
      AfterPrefix(ops, op, k - 1);
    }
  }

  lemma {:induction false} LastInstallExtends(ops: seq<Op>, op: Op, k: nat, user: Int64, id: Int64)
    requires k < |ops| && LastInstall(ops, k, user, id)
    requires Find(After(ops, |ops|), user, id).Some? && Installs(After(ops, |ops|), op, user, id).None?
    ensures LastInstall(ops + [op], k, user, id)
  {
    hide Step, Find, Installs;
    AfterPrefix(ops, op, k);
    forall j | k < j < |ops| + 1
      ensures Installs(After(ops + [op], j), (ops + [op])[j], user, id).None? && Find(After(ops + [op], j), user, id).Some?
    {
      AfterPrefix(ops, op, j);
    }
  }

  /** The counter after the run is what call `k` installed plus the ledger since. */
  ghost predicate AgreesSince(ops: seq<Op>, k: nat, user: Int64, id: Int64)
    requires k < |ops|
  {
    && LastInstall(ops, k, user, id)
    && Find(After(ops, |ops|), user, id).Some?
    && Find(After(ops, |ops|), user, id).value.usedBytes
    == Installs(After(ops, k), ops[k], user, id).value + LedgerSum(ops, k + 1, |ops|, user, id)
  }

  lemma EmptyHoldsNothing(user: Int64, id: Int64)
    ensures Find(map[], user, id).None?
  {
  }

  lemma {:induction false} TraceToInstall(ops: seq<Op>, user: Int64, id: Int64) returns (k: nat)
    requires id != OVERFLOW_SUBSCRIPTION_ID
    requires Find(After(ops, |ops|), user, id).Some?
    ensures k < |ops| && AgreesSince(ops, k, user, id)
    decreases |ops|
  {
    hide Step, Find, Installs, LedgerCharge;
    EmptyHoldsNothing(user, id);
    var n := |ops| - 1;
    var init, op := ops[..n], ops[n];
    assert init + [op] == ops;
    ReachablePrepared(ops, n);
    StepMovesCounter(After(ops, n), op, user, id);
    AfterPrefix(init, op, n);
    if Installs(After(ops, n), op, user, id).Some? {
      k := n;
    } else {
      k := TraceToInstall(init, user, id);
      LastInstallExtends(init, op, k, user, id);
      LedgerSumPrefix(init, op, k + 1, n, user, id);
      AfterPrefix(init, op, k);
    }
  }

  /**
    The cache agrees with the ledger after every run: a held counter is the value last
    installed for it plus the sum of all rows emitted for it since whose bucket was not
    before its reset instant at the time.
   */
  lemma {:induction false} CacheAgreesWithLedger(ops: seq<Op>, user: Int64, id: Int64)
    requires id != OVERFLOW_SUBSCRIPTION_ID
    requires Find(After(ops, |ops|), user, id).Some?
    ensures exists k :: 0 <= k < |ops| && AgreesSince(ops, k, user, id)
  {
    var k := TraceToInstall(ops, user, id);
  }

  /** A `Sync` moves no counter already held, and drops exactly what it is not given. */
  lemma {:induction false} SyncKeepsCounters(ops: seq<Op>, user: Int64, subs: seq<SubQuota>, id: Int64)
    ensures var m := After(ops, |ops|);
            var before, after := Find(m, user, id), Find(Step(m, Op.Sync(user, subs)), user, id);
            && (after.Some? <==> Entry(subs, id).Some?)
            && (after.Some? && before.Some? ==>
                  after.value == Entry(subs, id).value.(usedBytes := before.value.usedBytes))
            && (after.Some? && before.None? ==> after == Entry(subs, id))
  {
    PrepareKeepsFirst(subs, id);
    CarriedEntry(Prepare(subs), Held(After(ops, |ops|), user), id);
  }

  /** A call on one user leaves every other user's set as it was. */
  lemma OtherUsersUntouched(m: Ladders, op: Op, other: Int64)
    requires other != op.user
    ensures other in Step(m, op) <==> other in m
    ensures Held(Step(m, op), other) == Held(m, other)
  {
  }

  lemma OneRow(r: LedgerRow)
    ensures SumBilled([r]) == r.billed
  {
    assert SumTo([r], 1) == SumTo([r], 0) + [r][0].billed;
  }

  /** Every byte a call is given to attribute is on some row it emits, whoever the user is. */
  lemma EmittedSumsToBilled(m: Ladders, op: Op)
    requires op.Attribute?
    ensures SumBilled(Emitted(m, op)) == Max(0, op.billed)
  {
    OneRow(LedgerRow(OVERFLOW_SUBSCRIPTION_ID, op.billed));
  }

  lemma RowChargeWithinRoom(subs: seq<SubQuota>, billed: Int64, bucketAt: Instant, id: Int64)
    requires DistinctIds(subs) && id != OVERFLOW_SUBSCRIPTION_ID && Entry(subs, id).Some?
    ensures 0 <= RowCharge(subs, billed, bucketAt, id) <= Entry(subs, id).value.Room()
  {
    var i := EntryIndex(subs, id);
    FlushChargesShares(subs, billed, bucketAt);
    AttributeTotals(billed, subs, bucketAt, id);
    TakenForDistinct(subs, bucketAt, Max(0, billed), i, |subs|);
  }

  /** `before` charged `amount` as a flush may: exactly, never past the allowance, the counter only. */
  ghost predicate ChargedWithinAllowance(before: SubQuota, after: SubQuota, amount: int) {
    && FitsInt64(before.usedBytes + amount)
    && after == before.(usedBytes := before.usedBytes + amount)
    && (before.usedBytes <= before.transferBytes ==> after.usedBytes <= before.transferBytes)
    && (before.usedBytes > before.transferBytes ==> after == before)
  }

  /**
    On every reachable ladder a flush deducts each row from the entry it names, lifts no
    counter above its allowance (one above it already stays put), wraps no sum, and changes
    nothing but counters.
   */
  lemma {:induction false} FlushNeverOverdraws(ops: seq<Op>, user: Int64, billed: Int64, bucketAt: Instant, id: Int64)
    requires id != OVERFLOW_SUBSCRIPTION_ID
    ensures var m := After(ops, |ops|);
            var flush := Op.Attribute(user, billed, bucketAt);
            var before, after := Find(m, user, id), Find(Step(m, flush), user, id);
            && (after.Some? <==> before.Some?)
            && (after.Some? ==> ChargedWithinAllowance(before.value, after.value, LedgerCharge(m, flush, user, id)))
  {
    var m := After(ops, |ops|);
    ReachablePrepared(ops, |ops|);
    if user in m && Entry(m[user], id).Some? {
      FlushMovesEntry(m[user], billed, bucketAt, id);
      RowChargeWithinRoom(m[user], billed, bucketAt, id);
      LedgerChargeIsRowCharge(m, Op.Attribute(user, billed, bucketAt), user, id);
    } else if user in m {
      FlushMovesEntry(m[user], billed, bucketAt, id);
    }
  }

  // ----- runs of flushes

  /** The ladders after a run of calls that starts from `m`. */
  function Run(m: Ladders, ops: seq<Op>): Ladders {
    if ops == [] then m else Step(Run(m, ops[..|ops| - 1]), ops[|ops| - 1])
  }

  /** Through any run of flushes, a held entry keeps everything but its counter, which only grows, never past its allowance. */
  ghost predicate SpentWithinAllowance(before: Option<SubQuota>, after: Option<SubQuota>) {
    && (before.Some? <==> after.Some?)
    && (before.Some? ==>
          && after.value == before.value.(usedBytes := after.value.usedBytes)
          && before.value.usedBytes <= after.value.usedBytes <= Max(before.value.usedBytes, before.value.transferBytes))
  }

  lemma FlushSpendsWithinAllowance(held: seq<SubQuota>, billed: Int64, bucketAt: Instant, id: Int64)
    requires Prepared(held) && id != OVERFLOW_SUBSCRIPTION_ID
    ensures SpentWithinAllowance(Entry(held, id), Entry(Flushed(held, billed, bucketAt), id))
  {
    hide Entry, Flushed, RowCharge;
    FlushMovesEntry(held, billed, bucketAt, id);
    if Entry(held, id).Some? {
      RowChargeWithinRoom(held, billed, bucketAt, id);
    }
  }

  lemma {:induction false} RunSpendsWithinAllowance(m: Ladders, flushes: seq<Op>, user: Int64, id: Int64)
    requires AllPrepared(m) && id != OVERFLOW_SUBSCRIPTION_ID
    requires forall i :: 0 <= i < |flushes| ==> flushes[i].Attribute?
    ensures AllPrepared(Run(m, flushes)) && SpentWithinAllowance(Find(m, user, id), Find(Run(m, flushes), user, id))
  {
    hide Entry, Flushed, Prepared;
    if flushes != [] {
      var init, op := flushes[..|flushes| - 1], flushes[|flushes| - 1];
      RunSpendsWithinAllowance(m, init, user, id);
      StepKeepsPrepared(Run(m, init), op);
      EmptyPrepared();
      if op.user == user {
        FlushSpendsWithinAllowance(Held(Run(m, init), user), op.billed, op.bucketAt, id);
      }
    }
  }

  /** No run of flushes, of any users and buckets, from any reachable ladder overdraws a subscription. */
  lemma {:induction false} NoRunOverdraws(ops: seq<Op>, flushes: seq<Op>, user: Int64, id: Int64)
    requires id != OVERFLOW_SUBSCRIPTION_ID
    requires forall i :: 0 <= i < |flushes| ==> flushes[i].Attribute?
    ensures SpentWithinAllowance(Find(After(ops, |ops|), user, id), Find(Run(After(ops, |ops|), flushes), user, id))
  {
    hide Find, Run;
    ReachablePrepared(ops, |ops|);
    RunSpendsWithinAllowance(After(ops, |ops|), flushes, user, id);
  }

  // ----- flushes that were in flight across a reset

  ghost predicate LateFlushes(ops: seq<Op>, resetAt: Instant) {
    forall i :: 0 <= i < |ops| ==> ops[i].Attribute? && ops[i].bucketAt < AlignBucket(resetAt)
  }

  lemma LateFlushKeepsEntry(held: seq<SubQuota>, billed: Int64, bucketAt: Instant, id: Int64, resetAt: Instant)
    requires Prepared(held) && id != OVERFLOW_SUBSCRIPTION_ID && bucketAt < AlignBucket(resetAt)
    requires Entry(held, id).Some? && Entry(held, id).value.lastResetAt == Some(AlignBucket(resetAt))
    ensures Entry(Flushed(held, billed, bucketAt), id) == Entry(held, id)
  {
    hide Flushed, Entry, AlignBucket, AttributeRows;
    AlignBucketIdempotentMonotone(resetAt, resetAt);
    FlushMovesEntry(held, billed, bucketAt, id);
  }

  lemma {:induction false} LateFlushesKeepEntry(m: Ladders, ops: seq<Op>, user: Int64, id: Int64, resetAt: Instant)
    requires AllPrepared(m) && id != OVERFLOW_SUBSCRIPTION_ID && LateFlushes(ops, resetAt)
    requires Find(m, user, id).Some? && Find(m, user, id).value.lastResetAt == Some(AlignBucket(resetAt))
    ensures AllPrepared(Run(m, ops)) && Find(Run(m, ops), user, id) == Find(m, user, id)
  {
    hide Flushed, Entry, AlignBucket, Prepared;
    if ops != [] {
      var init, op := ops[..|ops| - 1], ops[|ops| - 1];
      LateFlushesKeepEntry(m, init, user, id, resetAt);
      var before := Run(m, init);
      StepKeepsPrepared(before, op);
      EmptyPrepared();
      if op.user == user {
        LateFlushKeepsEntry(Held(before, user), op.billed, op.bucketAt, id, resetAt);
      }
    }
  }

  /** After a reset on a reachable ladder, any run of flushes of earlier buckets leaves the fresh counter at zero. */
  lemma {:induction false} ResetSplitsBuckets(ops: seq<Op>, user: Int64, id: Int64, epoch: Int32, resetAt: Instant,
                                        late: seq<Op>)
    requires id != OVERFLOW_SUBSCRIPTION_ID && Find(After(ops, |ops|), user, id).Some?
    requires LateFlushes(late, resetAt)
    ensures Find(Run(Step(After(ops, |ops|), Op.Reset(user, id, epoch, resetAt)), late), user, id)
         == Some(ResetEntry(Find(After(ops, |ops|), user, id).value, epoch, resetAt))
  {
    var m := After(ops, |ops|);
    var op := Op.Reset(user, id, epoch, resetAt);
    ReachablePrepared(ops, |ops|);
    StepKeepsPrepared(m, op);
    ReplacingCalls(Held(m, user), op, id);
    LateFlushesKeepEntry(Step(m, op), late, user, id, resetAt);
  }
}
