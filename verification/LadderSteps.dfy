/**
  The ladder's operations as functions from the held ladders to the next ones
  (internal/metering/ladder.go). The `QuotaLadder` methods are proved to take these steps.
 */
module LadderSteps {
  import opened MachineInts
  import opened Options
  import opened Waterfall
  import opened Buckets
  import opened Quota
  import opened DeductionOrder

  type Ladders = map<Int64, seq<SubQuota>>

  function Held(m: Ladders, user: Int64): seq<SubQuota> {
    if user in m then m[user] else []
  }

  /** The entry a lookup by ID finds. */
  function Entry(subs: seq<SubQuota>, id: Int64): Option<SubQuota> {
    var i := EntryIndex(subs, id);
    if i < |subs| then Some(subs[i]) else None
  }

  /** What every installed set looks like: no repeated ID, in deduction order. */
  ghost predicate Prepared(subs: seq<SubQuota>) {
    DistinctIds(subs) && InOrder(subs)
  }

  ghost predicate AllPrepared(m: Ladders) {
    forall user :: user in m ==> Prepared(m[user])
  }

  // ----- prepare

  function Dedup(subs: seq<SubQuota>): seq<SubQuota> {
    if subs == [] then []
    else
      var init, last := subs[..|subs| - 1], subs[|subs| - 1];
      if EntryIndex(init, last.id) < |init| then Dedup(init) else Dedup(init) + [last]
  }

  function Prepare(subs: seq<SubQuota>): seq<SubQuota> {
    Sorted(Dedup(subs))
  }

  lemma EntryIsFirst(subs: seq<SubQuota>, id: Int64, i: nat)
    requires i < |subs| && subs[i].id == id && forall j :: 0 <= j < i ==> subs[j].id != id
    ensures EntryIndex(subs, id) == i && Entry(subs, id) == Some(subs[i])
  {
  }

  lemma EntryAppend(subs: seq<SubQuota>, s: SubQuota, id: Int64)
    ensures Entry(subs + [s], id)
         == if Entry(subs, id).Some? then Entry(subs, id) else if s.id == id then Some(s) else None
  {
    var i := EntryIndex(subs, id);
    if i < |subs| {
      EntryIsFirst(subs + [s], id, i);
    } else if s.id == id {
      EntryIsFirst(subs + [s], id, |subs|);
    }
  }

  lemma {:induction false} DedupKeepsFirst(subs: seq<SubQuota>, id: Int64)
    ensures Entry(Dedup(subs), id) == Entry(subs, id)
  {
    if subs != [] {
      var init, last := subs[..|subs| - 1], subs[|subs| - 1];
      assert init + [last] == subs;
      DedupKeepsFirst(init, id);
      EntryAppend(init, last, id);
      EntryAppend(Dedup(init), last, id);
    }
  }

  lemma {:induction false} DedupDistinct(subs: seq<SubQuota>)
    ensures DistinctIds(Dedup(subs))
  {
    if subs != [] {
      var init, last := subs[..|subs| - 1], subs[|subs| - 1];
      DedupDistinct(init);
      DedupKeepsFirst(init, last.id);
    }
  }

  lemma EntryIffMember(subs: seq<SubQuota>, s: SubQuota)
    requires DistinctIds(subs)
    ensures Entry(subs, s.id) == Some(s) <==> s in multiset(subs)
  {
  }

  lemma EntryPermuted(a: seq<SubQuota>, b: seq<SubQuota>, id: Int64)
    requires DistinctIds(a) && DistinctIds(b) && multiset(a) == multiset(b)
    ensures Entry(a, id) == Entry(b, id)
  {
    if Entry(a, id).Some? {
      EntryIffMember(a, Entry(a, id).value);
      EntryIffMember(b, Entry(a, id).value);
    }
    if Entry(b, id).Some? {
      EntryIffMember(a, Entry(b, id).value);
      EntryIffMember(b, Entry(b, id).value);
    }
  }

  /** `prepare` keeps the first entry of every ID, keeps no other, and orders them. */
  lemma PrepareKeepsFirst(subs: seq<SubQuota>, id: Int64)
    ensures Prepared(Prepare(subs))
    ensures Entry(Prepare(subs), id) == Entry(subs, id)
  {
    DedupDistinct(subs);
    DedupKeepsFirst(subs, id);
    SortedInOrder(Dedup(subs));
    DistinctIdsPermuted(Dedup(subs), Prepare(subs));
    EntryPermuted(Dedup(subs), Prepare(subs), id);
  }

  // ----- the operations

  /** One call on a ladder. */
  datatype Op =
    | Rebuild(user: Int64, subs: seq<SubQuota>)
    | Sync(user: Int64, subs: seq<SubQuota>)
    | Drop(user: Int64)
    | Attribute(user: Int64, billed: Int64, bucketAt: Instant)
    | Reconcile(user: Int64, id: Int64, usedBytes: Int64)
    | Reset(user: Int64, id: Int64, epoch: Int32, resetAt: Instant)

  /** `s` with the counter already held for its ID, if there is one. */
  function Carried(s: SubQuota, held: seq<SubQuota>): SubQuota {
    match Entry(held, s.id)
    case Some(h) => s.(usedBytes := h.usedBytes)
    case None => s
  }

  function CarryCounters(next: seq<SubQuota>, held: seq<SubQuota>): seq<SubQuota> {
    seq(|next|, i requires 0 <= i < |next| => Carried(next[i], held))
  }

  /** The rows a call emits. */
  function Emitted(m: Ladders, op: Op): seq<LedgerRow> {
    if !op.Attribute? || op.billed <= 0 then []
    else if op.user !in m then [LedgerRow(OVERFLOW_SUBSCRIPTION_ID, op.billed)]
    else AttributeRows(op.billed, m[op.user], op.bucketAt)
  }

  lemma EmittedForHeld(m: Ladders, op: Op)
    requires op.Attribute? && op.user in m
    ensures Emitted(m, op) == AttributeRows(op.billed, m[op.user], op.bucketAt)
  {
  }

  function ResetEntry(s: SubQuota, epoch: Int32, resetAt: Instant): SubQuota {
    s.(usedBytes := 0, resetEpoch := epoch, lastResetAt := Some(AlignBucket(resetAt)))
  }

  function Flushed(subs: seq<SubQuota>, billed: Int64, bucketAt: Instant): (r: seq<SubQuota>)
    ensures |r| == |subs|
  {
    var rows := AttributeRows(billed, subs, bucketAt);
    Deducted(subs, rows, Some(bucketAt), |rows|)
  }

  /** The set a call leaves for its own user, who held `held` before it. */
  function NextSet(held: seq<SubQuota>, op: Op): seq<SubQuota> {
    match op
    case Rebuild(_, subs) => Prepare(subs)
    case Sync(_, subs) => CarryCounters(Prepare(subs), held)
    case Drop(_) => []
    case Attribute(_, billed, bucketAt) => Flushed(held, billed, bucketAt)
    case Reconcile(_, id, usedBytes) =>
      var i := EntryIndex(held, id);
      if i < |held| then held[i := held[i].(usedBytes := usedBytes)] else held
    case Reset(_, id, epoch, resetAt) =>
      var i := EntryIndex(held, id);
      if i < |held| then held[i := ResetEntry(held[i], epoch, resetAt)] else held
  }

  /** Only `Rebuild` and `Sync` bring a user in, and only `Drop` takes one out. */
  function Step(m: Ladders, op: Op): Ladders {
    if op.Drop? then m - {op.user}
    else if op.Rebuild? || op.Sync? || op.user in m then m[op.user := NextSet(Held(m, op.user), op)]
    else m
  }

  // ----- one flush, entry by entry

  /** An entry after a flush of its bucket charged `amount` to it: a late bucket leaves the counter alone. */
  function Spent(s: SubQuota, amount: nat, bucketAt: Instant): SubQuota {
    if s.id != OVERFLOW_SUBSCRIPTION_ID && CountsTowardCurrentPeriod(bucketAt, s.lastResetAt) then Charge(s, amount) else s
  }

  /** Taking no more than the room of an entry moves its counter exactly, and at most up to its allowance. */
  lemma ChargeIsExact(s: SubQuota, amount: nat)
    requires amount <= s.Room()
    ensures Charge(s, amount).usedBytes == s.usedBytes + amount
    ensures Charge(s, amount).usedBytes <= Max(s.usedBytes, s.transferBytes)
    ensures Charge(s, amount).Room() == s.Room() - amount
  {
  }

  /**
    Every row is deducted from exactly the entry it was taken from: entry `i` is charged its
    share of the amount and nothing else, if its period includes the bucket.
   */
  lemma FlushChargesShares(subs: seq<SubQuota>, billed: Int64, bucketAt: Instant)
    requires DistinctIds(subs)
    ensures forall i :: 0 <= i < |subs| ==>
              Flushed(subs, billed, bucketAt)[i] == Spent(subs[i], TakenFrom(subs, bucketAt, Max(0, billed), i), bucketAt)
    ensures forall i :: 0 <= i < |subs| ==> TakenFrom(subs, bucketAt, Max(0, billed), i) <= subs[i].Room()
  {
    var rows := AttributeRows(billed, subs, bucketAt);
    DeductedPointwise(subs, rows, Some(bucketAt), |rows|);
    SharesWithin(Rooms(subs), Expiries(subs), bucketAt, Max(0, billed));
    forall i | 0 <= i < |subs|
      ensures Flushed(subs, billed, bucketAt)[i] == Spent(subs[i], TakenFrom(subs, bucketAt, Max(0, billed), i), bucketAt)
      ensures TakenFrom(subs, bucketAt, Max(0, billed), i) <= subs[i].Room()
    {
      assert Shares(Rooms(subs), Expiries(subs), bucketAt, Max(0, billed))[i] <= Rooms(subs)[i];
      if subs[i].id != OVERFLOW_SUBSCRIPTION_ID {
        AttributeTotals(billed, subs, bucketAt, subs[i].id);
        TakenForDistinct(subs, bucketAt, Max(0, billed), i, |subs|);
      }
    }
  }

  /** A flush changes counters and nothing else, so the set stays prepared. */
  lemma FlushKeepsPrepared(subs: seq<SubQuota>, billed: Int64, bucketAt: Instant)
    requires Prepared(subs)
    ensures Prepared(Flushed(subs, billed, bucketAt))
    ensures Expiries(Flushed(subs, billed, bucketAt)) == Expiries(subs)
  {
    FlushChargesShares(subs, billed, bucketAt);
    CountersDoNotOrder(subs, Flushed(subs, billed, bucketAt));
  }

  /** Two sequences that differ at most in counters, epochs and reset instants. */
  ghost predicate SameButCounters(a: seq<SubQuota>, b: seq<SubQuota>) {
    |a| == |b| && forall i :: 0 <= i < |a| ==>
      a[i].id == b[i].id && a[i].kind == b[i].kind && a[i].expiredAt == b[i].expiredAt
  }

  lemma CountersDoNotOrder(a: seq<SubQuota>, b: seq<SubQuota>)
    requires SameButCounters(a, b) && Prepared(a)
    ensures Prepared(b)
  {
  }

  lemma ReplaceKeepsPrepared(held: seq<SubQuota>, i: nat, s: SubQuota)
    requires Prepared(held) && i < |held|
    requires s.id == held[i].id && s.kind == held[i].kind && s.expiredAt == held[i].expiredAt
    ensures Prepared(held[i := s])
  {
  }

  lemma CarryKeepsPrepared(next: seq<SubQuota>, held: seq<SubQuota>)
    requires Prepared(next)
    ensures Prepared(CarryCounters(next, held))
  {
  }

  lemma NextSetPrepared(held: seq<SubQuota>, op: Op)
    requires Prepared(held)
    ensures Prepared(NextSet(held, op))
  {
    EmptyPrepared();
    hide Prepared, Prepare, CarryCounters, Flushed;
    match op
    case Rebuild(_, subs) =>
      PrepareKeepsFirst(subs, 0);
    case Sync(_, subs) =>
      PrepareKeepsFirst(subs, 0);
      CarryKeepsPrepared(Prepare(subs), held);
    case Drop(_) =>
    case Attribute(_, billed, bucketAt) =>
      FlushKeepsPrepared(held, billed, bucketAt);
    case Reconcile(_, id, usedBytes) =>
      var i := EntryIndex(held, id);
      if i < |held| {
        ReplaceKeepsPrepared(held, i, held[i].(usedBytes := usedBytes));
      }
    case Reset(_, id, epoch, resetAt) =>
      var i := EntryIndex(held, id);
      if i < |held| {
        ReplaceKeepsPrepared(held, i, ResetEntry(held[i], epoch, resetAt));
      }
  }

  /** Every call keeps every held set free of repeats and in deduction order, and touches one user. */
  lemma StepKeepsPrepared(m: Ladders, op: Op)
    requires AllPrepared(m)
    ensures AllPrepared(Step(m, op))
    ensures forall other :: other != op.user ==>
              (other in Step(m, op) <==> other in m) && Held(Step(m, op), other) == Held(m, other)
  {
    hide NextSet, Prepared;
    assert Prepared([]) by { EmptyPrepared(); }
    NextSetPrepared(Held(m, op.user), op);
  }

  lemma EmptyPrepared()
    ensures Prepared([])
  {
  }
}
