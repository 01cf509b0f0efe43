/**
  Subscriptions' remaining allowance and the greedy split of a billed amount over them
  (internal/domain/quota.go), with the entitlement check of internal/domain/reset.go.
 */
module Quota {
  import opened MachineInts
  import opened Options
  import opened Waterfall
  import opened Buckets

  /** `Other` stands for a kind outside the two known ones. */
  datatype SubKind = Primary | DataPack | Other(name: string)

  const OVERFLOW_SUBSCRIPTION_ID: Int64 := 0

  datatype SubQuota = SubQuota(
    id: Int64,
    kind: SubKind,
    transferBytes: Int64,
    usedBytes: Int64,
    expiredAt: Option<Instant>,
    lastResetAt: Option<Instant>,
    resetEpoch: Int32)
  {
    /** The subtraction is int64 arithmetic: a very negative counter makes it wrap below zero. */
    function Available(): Int64 {
      if usedBytes >= transferBytes then 0 else Wrap64(transferBytes - usedBytes)
    }

    predicate ActiveAt(at: Instant) {
      Live(expiredAt, at)
    }

    /** What attribution can still take from this entry; a wrapped availability counts as none. */
    function Room(): nat {
      Max(0, Available())
    }

    predicate Entitled(at: Instant) {
      ActiveAt(at) && usedBytes < transferBytes
    }
  }

  datatype LedgerRow = LedgerRow(subscriptionId: Int64, billed: Int64)

  function Rooms(subs: seq<SubQuota>): seq<nat> {
    seq(|subs|, i requires 0 <= i < |subs| => subs[i].Room())
  }

  function Expiries(subs: seq<SubQuota>): seq<Option<Instant>> {
    seq(|subs|, i requires 0 <= i < |subs| => subs[i].expiredAt)
  }

  /** What the first `k` entries can absorb at `at`. */
  function Cover(subs: seq<SubQuota>, at: Instant, k: nat): nat
    requires k <= |subs|
  {
    LiveSum(Rooms(subs), Expiries(subs), at, k)
  }

  /** Entry `i`'s part of `billed`. */
  function TakenFrom(subs: seq<SubQuota>, at: Instant, billed: nat, i: nat): nat
    requires i < |subs|
  {
    Share(Rooms(subs), Expiries(subs), at, billed, i)
  }

  function OverflowOf(subs: seq<SubQuota>, at: Instant, billed: nat): nat {
    Uncovered(Rooms(subs), Expiries(subs), at, billed)
  }

  // ----- ledger rows

  /** The position of the first row for `id` from `from` on, or the number of rows. */
  function RowIndexFrom(rows: seq<LedgerRow>, id: Int64, from: nat): (i: nat)
    requires from <= |rows|
    ensures from <= i <= |rows|
    ensures i < |rows| ==> rows[i].subscriptionId == id
    ensures forall j :: from <= j < i ==> rows[j].subscriptionId != id
    decreases |rows| - from
  {
    if from == |rows| || rows[from].subscriptionId == id then from else RowIndexFrom(rows, id, from + 1)
  }

  function RowIndex(rows: seq<LedgerRow>, id: Int64): (i: nat)
    ensures i <= |rows|
    ensures i < |rows| ==> rows[i].subscriptionId == id
    ensures forall j :: 0 <= j < i ==> rows[j].subscriptionId != id
  {
    RowIndexFrom(rows, id, 0)
  }

  function RowAmount(rows: seq<LedgerRow>, id: Int64): int {
    var i := RowIndex(rows, id);
    if i < |rows| then rows[i].billed else 0
  }

  function SumTo(rows: seq<LedgerRow>, k: nat): int
    requires k <= |rows|
  {
    if k == 0 then 0 else SumTo(rows, k - 1) + rows[k - 1].billed
  }

  function SumBilled(rows: seq<LedgerRow>): int {
    SumTo(rows, |rows|)
  }

  /** At most one row per subscription, and no row that conveys nothing. */
  ghost predicate Sound(rows: seq<LedgerRow>) {
    && (forall i, j :: 0 <= i < j < |rows| ==> rows[i].subscriptionId != rows[j].subscriptionId)
    && (forall i :: 0 <= i < |rows| ==> rows[i].billed > 0)
  }

  lemma {:induction false} SumToUpdate(rows: seq<LedgerRow>, i: nat, r: LedgerRow, k: nat)
    requires i < |rows| && k <= |rows|
    ensures SumTo(rows[i := r], k) == SumTo(rows, k) + if i < k then r.billed - rows[i].billed else 0
  {
    if k > 0 {
      SumToUpdate(rows, i, r, k - 1);
    }
  }

  lemma {:induction false} SumToAppend(rows: seq<LedgerRow>, r: LedgerRow, k: nat)
    requires k <= |rows|
    ensures SumTo(rows + [r], k) == SumTo(rows, k)
  {
    if k > 0 {
      SumToAppend(rows, r, k - 1);
    }
  }

  lemma {:induction false} SumToBounds(rows: seq<LedgerRow>, i: nat, k: nat)
    requires i < |rows| && k <= |rows| && Sound(rows)
    ensures 0 <= SumTo(rows, k)
    ensures i < k ==> rows[i].billed <= SumTo(rows, k)
  {
    if k > 0 {
      SumToBounds(rows, i, k - 1);
    }
  }

  /** Accumulate into the row for `id`, or open one. The int64 addition cannot wrap. */
  function AddRow(rows: seq<LedgerRow>, id: Int64, amount: Int64): (r: seq<LedgerRow>)
    requires Sound(rows) && amount > 0 && SumBilled(rows) + amount <= MAX_INT64
    ensures Sound(r) && SumBilled(r) == SumBilled(rows) + amount
  {
    var i := RowIndex(rows, id);
    if i < |rows| then
      assert rows[i].billed <= SumBilled(rows) by { SumToBounds(rows, i, |rows|); }
      assert SumBilled(rows[i := LedgerRow(id, rows[i].billed + amount)]) == SumBilled(rows) + amount by {
        SumToUpdate(rows, i, LedgerRow(id, rows[i].billed + amount), |rows|);
      }
      rows[i := LedgerRow(id, rows[i].billed + amount)]
    else
      assert SumBilled(rows + [LedgerRow(id, amount)]) == SumBilled(rows) + amount by {
        SumToAppend(rows, LedgerRow(id, amount), |rows|);
      }
      rows + [LedgerRow(id, amount)]
  }

  lemma AddRowAt(rows: seq<LedgerRow>, id: Int64, amount: Int64, i: nat)
    requires Sound(rows) && amount > 0 && SumBilled(rows) + amount <= MAX_INT64
    requires i < |rows| && rows[i].subscriptionId == id
    ensures FitsInt64(rows[i].billed + amount)
    ensures AddRow(rows, id, amount) == rows[i := LedgerRow(id, rows[i].billed + amount)]
  {
    SumToBounds(rows, i, |rows|);
    assert RowIndex(rows, id) == i;
  }

  /** Unique rows make the first match the only one. */
  lemma RowIndexUnique(rows: seq<LedgerRow>, id: Int64, i: nat)
    requires i < |rows| && Sound(rows) && rows[i].subscriptionId == id
    ensures RowIndex(rows, id) == i
  {
  }

  lemma AddRowAmounts(rows: seq<LedgerRow>, id: Int64, amount: Int64, other: Int64)
    requires Sound(rows) && amount > 0 && SumBilled(rows) + amount <= MAX_INT64
    ensures RowAmount(AddRow(rows, id, amount), other) == RowAmount(rows, other) + if other == id then amount else 0
    ensures RowIndex(rows, other) < |rows| ==> RowIndex(AddRow(rows, id, amount), other) == RowIndex(rows, other)
  {
  }

  // ----- attribution

  /** The scan of `Attribute` from entry `i` on, with `remaining` still to place. */
  function AttributeFrom(remaining: Int64, subs: seq<SubQuota>, at: Instant, i: nat, rows: seq<LedgerRow>)
    : (r: seq<LedgerRow>)
    requires i <= |subs| && remaining > 0 && Sound(rows) && SumBilled(rows) + remaining <= MAX_INT64
    ensures Sound(r) && SumBilled(r) == SumBilled(rows) + remaining
    decreases |subs| - i
  {
    if i == |subs| then
      AddRow(rows, OVERFLOW_SUBSCRIPTION_ID, remaining)
    else if !subs[i].ActiveAt(at) || subs[i].Available() <= 0 then
      AttributeFrom(remaining, subs, at, i + 1, rows)
    else
      var take := Min(subs[i].Available(), remaining);
      var rows' := AddRow(rows, subs[i].id, take);
      if take == remaining then rows' else AttributeFrom(remaining - take, subs, at, i + 1, rows')
  }

  /** The rows `Attribute` writes: one per subscription touched, in order of first touch. */
  function AttributeRows(billed: Int64, subs: seq<SubQuota>, at: Instant): (r: seq<LedgerRow>)
    ensures Sound(r) && SumBilled(r) == Max(0, billed)
  {
    if billed <= 0 then [] else AttributeFrom(billed, subs, at, 0, [])
  }

  /** The index map holds exactly the rows' subscriptions, each at its position. */
  ghost predicate Indexes(index: map<Int64, nat>, rows: seq<LedgerRow>) {
    && (forall id: Int64 :: id in index ==> index[id] < |rows| && rows[index[id]].subscriptionId == id)
    && (forall i :: 0 <= i < |rows| ==> rows[i].subscriptionId in index)
  }

  lemma IndexesUpdate(index: map<Int64, nat>, rows: seq<LedgerRow>, i: nat, r: LedgerRow)
    requires Indexes(index, rows) && i < |rows| && r.subscriptionId == rows[i].subscriptionId
    ensures Indexes(index, rows[i := r])
  {
  }

  lemma IndexesAppend(index: map<Int64, nat>, rows: seq<LedgerRow>, r: LedgerRow)
    requires Indexes(index, rows) && r.subscriptionId !in index
    ensures Indexes(index[r.subscriptionId := |rows|], rows + [r])
  {
  }

  method AddTo(rows: seq<LedgerRow>, index: map<Int64, nat>, id: Int64, amount: Int64)
    returns (rows': seq<LedgerRow>, index': map<Int64, nat>)
    requires Sound(rows) && amount > 0 && SumBilled(rows) + amount <= MAX_INT64
    requires Indexes(index, rows)
    ensures rows' == AddRow(rows, id, amount)
    ensures Indexes(index', rows')
  {
    if id in index {
      var i := index[id];
      AddRowAt(rows, id, amount, i);
      var billed: Int64 := rows[i].billed + amount;
      IndexesUpdate(index, rows, i, LedgerRow(id, billed));
      rows', index' := rows[i := LedgerRow(id, billed)], index;
    } else {
      assert RowIndex(rows, id) == |rows|;
      IndexesAppend(index, rows, LedgerRow(id, amount));
      rows', index' := rows + [LedgerRow(id, amount)], index[id := |rows|];
    }
  }

  method Attribute(billed: Int64, subs: seq<SubQuota>, at: Instant) returns (rows: seq<LedgerRow>)
    ensures rows == AttributeRows(billed, subs, at)
  {
    rows := [];
    if billed <= 0 {
      return;
    }
    var index: map<Int64, nat> := map[];
    var remaining: Int64 := billed;
    for i := 0 to |subs|
      invariant 0 < remaining && Sound(rows) && Indexes(index, rows)
      invariant SumBilled(rows) + remaining == billed
      invariant AttributeFrom(remaining, subs, at, i, rows) == AttributeRows(billed, subs, at)
    {
      var s := subs[i];
      if !s.ActiveAt(at) {
        continue;
      }
      var avail := s.Available();
      if avail <= 0 {
        continue;
      }
      var take := avail;
      if remaining < take {
        take := remaining;
      }
      rows, index := AddTo(rows, index, s.id, take);
      remaining := remaining - take;
      if remaining == 0 {
        return;
      }
    }
    rows, index := AddTo(rows, index, OVERFLOW_SUBSCRIPTION_ID, remaining);
  }

  // ----- what the rows say

  /** What the first `k` entries carrying `id` contribute to `billed`. */
  function TakenFor(subs: seq<SubQuota>, at: Instant, billed: nat, id: Int64, k: nat): nat
    requires k <= |subs|
  {
    if k == 0 then 0
    else TakenFor(subs, at, billed, id, k - 1) + if subs[k - 1].id == id then TakenFrom(subs, at, billed, k - 1) else 0
  }

  lemma {:induction false} TakenForStops(subs: seq<SubQuota>, at: Instant, billed: nat, id: Int64, j: nat, k: nat)
    requires j <= k <= |subs| && billed <= Cover(subs, at, j)
    ensures TakenFor(subs, at, billed, id, k) == TakenFor(subs, at, billed, id, j)
  {
    if j < k {
      TakenForStops(subs, at, billed, id, j, k - 1);
      LiveSumMonotone(Rooms(subs), Expiries(subs), at, j, k - 1);
    }
  }

  /** Entry `i` gives the smaller of its room and what the entries before it left of `billed`. */
  lemma TakenFromIsMin(subs: seq<SubQuota>, at: Instant, billed: nat, i: nat)
    requires i < |subs| && Cover(subs, at, i) < billed
    ensures TakenFrom(subs, at, billed, i)
         == if subs[i].ActiveAt(at) then Min(subs[i].Room(), billed - Cover(subs, at, i)) else 0
    ensures Cover(subs, at, i + 1) == Cover(subs, at, i) + if subs[i].ActiveAt(at) then subs[i].Room() else 0
  {
  }

  lemma {:induction false} NothingLeftToTake(subs: seq<SubQuota>, at: Instant, billed: nat, id: Int64, k: nat)
    requires k <= |subs| && billed <= Cover(subs, at, k)
    ensures TakenFor(subs, at, billed, id, |subs|) == TakenFor(subs, at, billed, id, k)
    ensures OverflowOf(subs, at, billed) == 0
  {
    TakenForStops(subs, at, billed, id, k, |subs|);
    LiveSumMonotone(Rooms(subs), Expiries(subs), at, k, |subs|);
  }

  lemma TakeStep(billed: Int64, subs: seq<SubQuota>, at: Instant, i: nat, rows: seq<LedgerRow>, id: Int64, take: Int64)
    requires i < |subs| && Cover(subs, at, i) < billed
    requires Sound(rows) && SumBilled(rows) == Cover(subs, at, i)
    requires subs[i].ActiveAt(at) && subs[i].Available() > 0
    requires take == Min(subs[i].Available(), billed - Cover(subs, at, i))
    ensures RowAmount(AddRow(rows, subs[i].id, take), id) - TakenFor(subs, at, billed, id, i + 1)
         == RowAmount(rows, id) - TakenFor(subs, at, billed, id, i)
    ensures if take == billed - Cover(subs, at, i) then billed <= Cover(subs, at, i + 1)
            else Cover(subs, at, i + 1) == Cover(subs, at, i) + take < billed
  {
    TakenFromIsMin(subs, at, billed, i);
    AddRowAmounts(rows, subs[i].id, take, id);
  }

  lemma SkipStep(subs: seq<SubQuota>, at: Instant, billed: nat, id: Int64, i: nat)
    requires i < |subs| && Cover(subs, at, i) < billed && (!subs[i].ActiveAt(at) || subs[i].Available() <= 0)
    ensures Cover(subs, at, i + 1) == Cover(subs, at, i)
    ensures TakenFor(subs, at, billed, id, i + 1) == TakenFor(subs, at, billed, id, i)
  {
  }

  lemma {:induction false} AttributeFromTotals(billed: Int64, subs: seq<SubQuota>, at: Instant, i: nat,
                                               rows: seq<LedgerRow>, id: Int64)
    requires i <= |subs| && Cover(subs, at, i) < billed
    requires Sound(rows) && SumBilled(rows) == Cover(subs, at, i)
    requires RowAmount(rows, id) == TakenFor(subs, at, billed, id, i)
    ensures RowAmount(AttributeFrom(billed - Cover(subs, at, i), subs, at, i, rows), id)
         == TakenFor(subs, at, billed, id, |subs|)
            + if id == OVERFLOW_SUBSCRIPTION_ID then OverflowOf(subs, at, billed) else 0
    decreases |subs| - i
  {
    hide TakenFor, TakenFrom, RowAmount, SumBilled, LiveSum, AddRow;
    var remaining := billed - Cover(subs, at, i);
    if i == |subs| {
      AddRowAmounts(rows, OVERFLOW_SUBSCRIPTION_ID, remaining, id);
    } else if !subs[i].ActiveAt(at) || subs[i].Available() <= 0 {
      SkipStep(subs, at, billed, id, i);
      AttributeFromTotals(billed, subs, at, i + 1, rows, id);
    } else {
      var take := Min(subs[i].Available(), remaining);
      TakeStep(billed, subs, at, i, rows, id, take);
      if take == remaining {
        NothingLeftToTake(subs, at, billed, id, i + 1);
      } else {
        AttributeFromTotals(billed, subs, at, i + 1, AddRow(rows, subs[i].id, take), id);
      }
    }
  }

  /**
    For any slice, repeated IDs included, the row of `id` is what all entries carrying it
    contribute; the sentinel's row also carries what nothing covers.
   */
  lemma {:induction false} AttributeTotals(billed: Int64, subs: seq<SubQuota>, at: Instant, id: Int64)
    ensures RowAmount(AttributeRows(billed, subs, at), id)
         == TakenFor(subs, at, Max(0, billed), id, |subs|)
            + if id == OVERFLOW_SUBSCRIPTION_ID then OverflowOf(subs, at, Max(0, billed)) else 0
  {
    if billed <= 0 {
      TakenForStops(subs, at, 0, id, 0, |subs|);
    } else {
      AttributeFromTotals(billed, subs, at, 0, [], id);
    }
  }

  ghost predicate DistinctIds(subs: seq<SubQuota>) {
    forall i, j :: 0 <= i < j < |subs| ==> subs[i].id != subs[j].id
  }

  /** The schema's IDs are positive, so none is the overflow sentinel. */
  ghost predicate NonZeroIds(subs: seq<SubQuota>) {
    forall i :: 0 <= i < |subs| ==> subs[i].id != OVERFLOW_SUBSCRIPTION_ID
  }

  lemma {:induction false} TakenForDistinct(subs: seq<SubQuota>, at: Instant, billed: nat, i: nat, k: nat)
    requires i < |subs| && k <= |subs| && DistinctIds(subs)
    ensures TakenFor(subs, at, billed, subs[i].id, k) == if i < k then TakenFrom(subs, at, billed, i) else 0
  {
    if k > 0 {
      TakenForDistinct(subs, at, billed, i, k - 1);
    }
  }

  lemma {:induction false} TakenForAbsent(subs: seq<SubQuota>, at: Instant, billed: nat, id: Int64, k: nat)
    requires k <= |subs| && forall i :: 0 <= i < k ==> subs[i].id != id
    ensures TakenFor(subs, at, billed, id, k) == 0
  {
    if k > 0 {
      TakenForAbsent(subs, at, billed, id, k - 1);
    }
  }

  /** A split's row amounts, entry by entry. */
  function Amounts(rows: seq<LedgerRow>, subs: seq<SubQuota>): seq<nat>
    requires forall i :: 0 <= i < |rows| ==> rows[i].billed > 0
  {
    seq(|subs|, i requires 0 <= i < |subs| => RowAmount(rows, subs[i].id))
  }

  /**
    For distinct nonzero IDs the rows are the one greedy split: within each entry's room,
    nothing from an expired entry, an entry touched only when the live ones before it are
    drained, overflow only when they all are, and every byte placed.
   */
  lemma AttributeIsGreedy(billed: Int64, subs: seq<SubQuota>, at: Instant)
    requires DistinctIds(subs) && NonZeroIds(subs)
    ensures var rows := AttributeRows(billed, subs, at);
            && Amounts(rows, subs) == Shares(Rooms(subs), Expiries(subs), at, Max(0, billed))
            && RowAmount(rows, OVERFLOW_SUBSCRIPTION_ID) == OverflowOf(subs, at, Max(0, billed))
            && GreedySplit(Amounts(rows, subs), RowAmount(rows, OVERFLOW_SUBSCRIPTION_ID),
                           Rooms(subs), Expiries(subs), at, Max(0, billed))
  {
    var rows := AttributeRows(billed, subs, at);
    forall i | 0 <= i < |subs|
      ensures RowAmount(rows, subs[i].id) == TakenFrom(subs, at, Max(0, billed), i)
    {
      AttributeTotals(billed, subs, at, subs[i].id);
      TakenForDistinct(subs, at, Max(0, billed), i, |subs|);
    }
    AttributeTotals(billed, subs, at, OVERFLOW_SUBSCRIPTION_ID);
    TakenForAbsent(subs, at, Max(0, billed), OVERFLOW_SUBSCRIPTION_ID, |subs|);
    SharesAreGreedy(Rooms(subs), Expiries(subs), at, Max(0, billed));
  }

  // ----- the order of the rows

  /** What is still to be placed never reorders the rows already there. */
  lemma {:induction false} AttributeFromExtends(remaining: Int64, subs: seq<SubQuota>, at: Instant, i: nat,
                                                rows: seq<LedgerRow>)
    requires i <= |subs| && remaining > 0 && Sound(rows) && SumBilled(rows) + remaining <= MAX_INT64
    ensures var r := AttributeFrom(remaining, subs, at, i, rows);
            |rows| <= |r| && forall k :: 0 <= k < |rows| ==> r[k].subscriptionId == rows[k].subscriptionId
    decreases |subs| - i
  {
    hide SumBilled, RowIndex;
    if i < |subs| {
      if !subs[i].ActiveAt(at) || subs[i].Available() <= 0 {
        AttributeFromExtends(remaining, subs, at, i + 1, rows);
      } else {
        var take := Min(subs[i].Available(), remaining);
        AddRowExtends(rows, subs[i].id, take);
        if take < remaining {
          AttributeFromExtends(remaining - take, subs, at, i + 1, AddRow(rows, subs[i].id, take));
        }
      }
    } else {
      AddRowExtends(rows, OVERFLOW_SUBSCRIPTION_ID, remaining);
    }
  }

  lemma AddRowExtends(rows: seq<LedgerRow>, id: Int64, amount: Int64)
    requires Sound(rows) && amount > 0 && SumBilled(rows) + amount <= MAX_INT64
    ensures var r := AddRow(rows, id, amount);
            |rows| <= |r| && forall k :: 0 <= k < |rows| ==> r[k].subscriptionId == rows[k].subscriptionId
  {
  }

  /** A row exists exactly for an ID with an amount. */
  lemma RowIffAmount(rows: seq<LedgerRow>, id: Int64)
    requires Sound(rows)
    ensures RowIndex(rows, id) < |rows| <==> RowAmount(rows, id) > 0
    ensures RowAmount(rows, id) >= 0
  {
  }

  lemma RowsStayOrdered(rows: seq<LedgerRow>, r: seq<LedgerRow>, first: Int64, second: Int64)
    requires |rows| <= |r| && Sound(r) && forall k :: 0 <= k < |rows| ==> r[k].subscriptionId == rows[k].subscriptionId
    requires RowIndex(rows, first) < |rows| && RowIndex(rows, second) == |rows|
    ensures RowIndex(r, first) < RowIndex(r, second)
  {
  }

  lemma {:induction false} RowsInOrderFrom(billed: Int64, subs: seq<SubQuota>, at: Instant, i: nat,
                                        rows: seq<LedgerRow>,
                                           first: Int64, b: nat)
    requires i <= b <= |subs| && Cover(subs, at, b) < billed && Cover(subs, at, i) <= Cover(subs, at, b)
    requires Sound(rows) && SumBilled(rows) == Cover(subs, at, i)
    requires RowAmount(rows, first) == TakenFor(subs, at, billed, first, i)
    requires var second := if b < |subs| then subs[b].id else OVERFLOW_SUBSCRIPTION_ID;
             RowAmount(rows, second) == TakenFor(subs, at, billed, second, i) && TakenFor(subs, at, billed, second, b) == 0
    requires TakenFor(subs, at, billed, first, b) > 0
    ensures RowIndex(AttributeFrom(billed - Cover(subs, at, i), subs, at, i, rows), first)
          < RowIndex(AttributeFrom(billed - Cover(subs, at, i), subs, at, i, rows),
                     if b < |subs| then subs[b].id else OVERFLOW_SUBSCRIPTION_ID)
    decreases b - i
  {
    hide TakenFor, TakenFrom, RowAmount, SumBilled, LiveSum, AddRow, RowIndex, Cover;
    var remaining := billed - Cover(subs, at, i);
    var second := if b < |subs| then subs[b].id else OVERFLOW_SUBSCRIPTION_ID;
    if i == b {
      RowIffAmount(rows, first);
      RowIffAmount(rows, second);
      AttributeFromExtends(remaining, subs, at, i, rows);
      RowsStayOrdered(rows, AttributeFrom(remaining, subs, at, i, rows), first, second);
    } else {
      CoverMonotone(subs, at, i + 1, b);
      if !subs[i].ActiveAt(at) || subs[i].Available() <= 0 {
        SkipStep(subs, at, billed, first, i);
        SkipStep(subs, at, billed, second, i);
        RowsInOrderFrom(billed, subs, at, i + 1, rows, first, b);
      } else {
        var take := Min(subs[i].Available(), remaining);
        TakeStep(billed, subs, at, i, rows, first, take);
        TakeStep(billed, subs, at, i, rows, second, take);
        RowsInOrderFrom(billed, subs, at, i + 1, AddRow(rows, subs[i].id, take), first, b);
      }
    }
  }

  lemma CoverMonotone(subs: seq<SubQuota>, at: Instant, j: nat, k: nat)
    requires j <= k <= |subs|
    ensures Cover(subs, at, j) <= Cover(subs, at, k)
  {
    LiveSumMonotone(Rooms(subs), Expiries(subs), at, j, k);
  }

  /** Rows come in deduction order, and the overflow row, if any, comes last. */
  lemma RowsInOrder(billed: Int64, subs: seq<SubQuota>, at: Instant, a: nat, b: nat)
    requires DistinctIds(subs) && NonZeroIds(subs) && a < b <= |subs| && billed > 0
    requires TakenFrom(subs, at, billed, a) > 0
    requires if b < |subs| then TakenFrom(subs, at, billed, b) > 0 else OverflowOf(subs, at, billed) > 0
    ensures RowIndex(AttributeRows(billed, subs, at), subs[a].id)
          < RowIndex(AttributeRows(billed, subs, at), if b < |subs| then subs[b].id else OVERFLOW_SUBSCRIPTION_ID)
  {
    var second := if b < |subs| then subs[b].id else OVERFLOW_SUBSCRIPTION_ID;
    TakenForDistinct(subs, at, billed, a, b);
    TakenForAbsent(subs, at, billed, second, b);
    CoverMonotone(subs, at, 0, b);
    assert Cover(subs, at, b) < billed;
    RowsInOrderFrom(billed, subs, at, 0, [], subs[a].id, b);
  }

  /** Every row names an entry of the slice or the sentinel. */
  lemma RowsNameEntries(billed: Int64, subs: seq<SubQuota>, at: Instant, id: Int64)
    requires id != OVERFLOW_SUBSCRIPTION_ID && forall i :: 0 <= i < |subs| ==> subs[i].id != id
    ensures RowIndex(AttributeRows(billed, subs, at), id) == |AttributeRows(billed, subs, at)|
  {
    AttributeTotals(billed, subs, at, id);
    TakenForAbsent(subs, at, Max(0, billed), id, |subs|);
  }

  // ----- deduction

  /** Whether a row of this bucket moves the entry's counter; `None` is the ungated deduction. */
  predicate Counts(s: SubQuota, bucket: Option<Instant>) {
    bucket.None? || CountsTowardCurrentPeriod(bucket.value, s.lastResetAt)
  }

  /** The position of the first entry carrying `id` from `from` on, or the number of entries. */
  function EntryIndexFrom(subs: seq<SubQuota>, id: Int64, from: nat): (i: nat)
    requires from <= |subs|
    ensures from <= i <= |subs|
    ensures i < |subs| ==> subs[i].id == id
    ensures forall j :: from <= j < i ==> subs[j].id != id
    decreases |subs| - from
  {
    if from == |subs| || subs[from].id == id then from else EntryIndexFrom(subs, id, from + 1)
  }

  function EntryIndex(subs: seq<SubQuota>, id: Int64): (i: nat)
    ensures i <= |subs|
    ensures i < |subs| ==> subs[i].id == id
    ensures forall j :: 0 <= j < i ==> subs[j].id != id
  {
    EntryIndexFrom(subs, id, 0)
  }

  function DeductRow(subs: seq<SubQuota>, r: LedgerRow, bucket: Option<Instant>): (s: seq<SubQuota>)
    ensures |s| == |subs|
  {
    var i := EntryIndex(subs, r.subscriptionId);
    if r.subscriptionId == OVERFLOW_SUBSCRIPTION_ID || i == |subs| || !Counts(subs[i], bucket) then subs
    else subs[i := subs[i].(usedBytes := Wrap64(subs[i].usedBytes + r.billed))]
  }

  /** The entries after the first `k` rows have been deducted. */
  function Deducted(subs: seq<SubQuota>, rows: seq<LedgerRow>, bucket: Option<Instant>, k: nat): (s: seq<SubQuota>)
    requires k <= |rows|
    ensures |s| == |subs|
  {
    if k == 0 then subs else DeductRow(Deducted(subs, rows, bucket, k - 1), rows[k - 1], bucket)
  }

  /** `s` with `amount` added to its counter, as the int64 addition does it. */
  function Charge(s: SubQuota, amount: int): SubQuota {
    s.(usedBytes := Wrap64(s.usedBytes + amount))
  }

  /** One row moves the entry carrying its ID and nothing else. */
  lemma DeductRowPointwise(subs: seq<SubQuota>, r: LedgerRow, bucket: Option<Instant>, i: nat)
    requires i < |subs| && DistinctIds(subs)
    ensures DeductRow(subs, r, bucket)[i]
         == if subs[i].id == r.subscriptionId && r.subscriptionId != OVERFLOW_SUBSCRIPTION_ID && Counts(subs[i], bucket)
            then Charge(subs[i], r.billed) else subs[i]
  {
  }

  /** Deduction of unique rows from distinct entries, read entry by entry. */
  lemma {:induction false} DeductedPointwise(subs: seq<SubQuota>, rows: seq<LedgerRow>, bucket: Option<Instant>, k: nat)
    requires k <= |rows| && DistinctIds(subs) && Sound(rows)
    ensures forall i :: 0 <= i < |subs| ==>
              Deducted(subs, rows, bucket, k)[i] == AfterRows(subs[i], rows, bucket, k)
  {
    if k > 0 {
      DeductedPointwise(subs, rows, bucket, k - 1);
      var before := Deducted(subs, rows, bucket, k - 1);
      forall i | 0 <= i < |subs|
        ensures Deducted(subs, rows, bucket, k)[i] == AfterRows(subs[i], rows, bucket, k)
      {
        assert before[i] == AfterRows(subs[i], rows, bucket, k - 1);
        DeductRowPointwise(before, rows[k - 1], bucket, i);
        if rows[k - 1].subscriptionId == subs[i].id {
          RowIndexUnique(rows, subs[i].id, k - 1);
        }
      }
    }
  }

  /** An entry once those of the first `k` rows that name it, at most one, are deducted. */
  function AfterRows(s: SubQuota, rows: seq<LedgerRow>, bucket: Option<Instant>, k: nat): (r: SubQuota)
    ensures r.id == s.id
  {
    if s.id != OVERFLOW_SUBSCRIPTION_ID && Counts(s, bucket) && RowIndex(rows, s.id) < Min(k, |rows|)
    then Charge(s, RowAmount(rows, s.id)) else s
  }

  /** `ApplyAttribution` updates the slice it is given in place. */
  method ApplyAttribution(subs: array<SubQuota>, rows: seq<LedgerRow>)
    modifies subs
    ensures subs[..] == Deducted(old(subs[..]), rows, None, |rows|)
  {
    for k := 0 to |rows|
      invariant subs[..] == Deducted(old(subs[..]), rows, None, k)
    {
      var r := rows[k];
      if r.subscriptionId == OVERFLOW_SUBSCRIPTION_ID {
        continue;
      }
      ghost var before := subs[..];
      for i := 0 to subs.Length
        invariant subs[..] == before
        invariant forall j :: 0 <= j < i ==> before[j].id != r.subscriptionId
        invariant subs[..] == Deducted(old(subs[..]), rows, None, k)
      {
        if subs[i].id == r.subscriptionId {
          assert EntryIndex(before, r.subscriptionId) == i;
          subs[i] := subs[i].(usedBytes := Wrap64(subs[i].usedBytes + r.billed));
          break;
        }
      }
      assert subs[..] == DeductRow(before, r, None);
    }
  }

  /** Where every entry's period includes the bucket, the ladder's gated deduction is `ApplyAttribution`'s. */
  lemma {:induction false} GateOpen(subs: seq<SubQuota>, rows: seq<LedgerRow>, bucketAt: Instant, k: nat)
    requires k <= |rows| && forall i :: 0 <= i < |subs| ==> CountsTowardCurrentPeriod(bucketAt, subs[i].lastResetAt)
    ensures Deducted(subs, rows, Some(bucketAt), k) == Deducted(subs, rows, None, k)
    ensures forall i :: 0 <= i < |subs| ==>
              CountsTowardCurrentPeriod(bucketAt, Deducted(subs, rows, None, k)[i].lastResetAt)
  {
    hide CountsTowardCurrentPeriod, Wrap64;
    if k > 0 {
      GateOpen(subs, rows, bucketAt, k - 1);
    }
  }

  // ----- entitlement

  /** The int64 subtraction in `Available` holds the true difference; nonnegative counters guarantee it. */
  predicate ExactAllowance(s: SubQuota) {
    s.transferBytes - s.usedBytes <= MAX_INT64
  }

  lemma AvailableIsExact(s: SubQuota)
    ensures s.Available() == Max(0, s.transferBytes - s.usedBytes) <==> ExactAllowance(s)
    ensures s.usedBytes >= 0 ==> ExactAllowance(s)
  {
  }

  lemma {:induction false} CoverPositive(subs: seq<SubQuota>, at: Instant, k: nat)
    requires k <= |subs|
    ensures Cover(subs, at, k) > 0 <==> exists i :: 0 <= i < k && subs[i].ActiveAt(at) && subs[i].Room() > 0
  {
    if k > 0 {
      CoverPositive(subs, at, k - 1);
      if Cover(subs, at, k) > 0 && Cover(subs, at, k - 1) == 0 {
        assert subs[k - 1].ActiveAt(at) && subs[k - 1].Room() > 0;
      }
    }
  }

  /** An entry can take a byte exactly when it is entitled and its allowance does not wrap. */
  lemma EntitledMatchesRoom(s: SubQuota, at: Instant)
    ensures s.ActiveAt(at) && s.Room() > 0 <==> s.Entitled(at) && ExactAllowance(s)
  {
  }

  /** One byte billed at `at` produces no overflow row. */
  predicate OneByteIsCovered(subs: seq<SubQuota>, at: Instant) {
    RowIndex(AttributeRows(1, subs, at), OVERFLOW_SUBSCRIPTION_ID) == |AttributeRows(1, subs, at)|
  }

  /**
    Some subscription is entitled exactly when one byte billed at that instant finds an
    owner, but on a ladder where entitlement rests on wrapped allowances alone: there one
    exists, and no entitled entry's allowance is exact. A nonnegative counter excludes it.
   */
  lemma EntitledIffOneByteIsCovered(subs: seq<SubQuota>, at: Instant)
    requires DistinctIds(subs) && NonZeroIds(subs)
    ensures ((exists i :: 0 <= i < |subs| && subs[i].Entitled(at)) <==> OneByteIsCovered(subs, at))
       <==> || (exists i :: 0 <= i < |subs| && subs[i].Entitled(at) && ExactAllowance(subs[i]))
            || (forall i :: 0 <= i < |subs| && subs[i].Entitled(at) ==> ExactAllowance(subs[i]))
    ensures (forall i :: 0 <= i < |subs| ==> subs[i].usedBytes >= 0)
        ==> ((exists i :: 0 <= i < |subs| && subs[i].Entitled(at)) <==> OneByteIsCovered(subs, at))
  {
    AttributeIsGreedy(1, subs, at);
    CoverPositive(subs, at, |subs|);
    forall i | 0 <= i < |subs|
      ensures subs[i].ActiveAt(at) && subs[i].Room() > 0 <==> subs[i].Entitled(at) && ExactAllowance(subs[i])
    {
      EntitledMatchesRoom(subs[i], at);
    }
  }

  /** The two do part: a counter of -1 under the largest allowance authorises traffic that is all overflow. */
  lemma EntitledButUncovered(at: Instant)
    ensures var s := SubQuota(1, Primary, MAX_INT64, -1, None, None, 0);
            s.Entitled(at) && AttributeRows(1, [s], at) == [LedgerRow(OVERFLOW_SUBSCRIPTION_ID, 1)]
  {
    var s := SubQuota(1, Primary, MAX_INT64, -1, None, None, 0);
    assert s.Available() == MIN_INT64;
    assert AttributeFrom(1, [s], at, 0, []) == AttributeFrom(1, [s], at, 1, []);
  }

  /** A lone entry pays for a byte up to the instant before it expires, and not at its expiry. */
  lemma CoveredUntilExpiry(s: SubQuota, at: Instant)
    requires s.id != OVERFLOW_SUBSCRIPTION_ID
    ensures OneByteIsCovered([s], at) <==> s.Room() > 0 && (s.expiredAt.None? || at < s.expiredAt.value)
  {
    AttributeIsGreedy(1, [s], at);
    CoverPositive([s], at, 1);
  }
}
