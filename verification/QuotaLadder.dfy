/** The in-memory quota ladder (internal/metering/ladder.go); every locked method is one atomic step. */
module QuotaLadders {
  import opened MachineInts
  import opened Options
  import opened Waterfall
  import opened Buckets
  import opened Quota
  import opened DeductionOrder
  import opened LadderSteps

  class QuotaLadder {
    var ladders: Ladders

    /** Every held set has distinct IDs and is in deduction order. */
    ghost predicate Valid()
      reads this
    {
      AllPrepared(ladders)
    }

    constructor ()
      ensures Valid() && ladders == map[]
    {
      ladders := map[];
    }

    method Rebuild(userID: Int64, subs: seq<SubQuota>)
      requires Valid()
      modifies this
      ensures Valid() && ladders == Step(old(ladders), Op.Rebuild(userID, subs))
    {
      StepKeepsPrepared(ladders, Op.Rebuild(userID, subs));
      var next := PrepareSet(subs);
      ladders := ladders[userID := next];
    }

    method Sync(userID: Int64, subs: seq<SubQuota>)
      requires Valid()
      modifies this
      ensures Valid() && ladders == Step(old(ladders), Op.Sync(userID, subs))
    {
      StepKeepsPrepared(ladders, Op.Sync(userID, subs));
      var held := if userID in ladders then ladders[userID] else [];
      var known := Counters(held);
      var prepared := PrepareSet(subs);
      var next := Overlay(prepared, known, held);
      ladders := ladders[userID := next];
    }

    method Drop(userID: Int64)
      requires Valid()
      modifies this
      ensures Valid() && ladders == Step(old(ladders), Op.Drop(userID))
    {
      ladders := ladders - {userID};
    }

    method Snapshot(userID: Int64) returns (cp: seq<SubQuota>)
      ensures cp == Held(ladders, userID)
    {
      var subs := if userID in ladders then ladders[userID] else [];
      cp := [];
      for i := 0 to |subs|
        invariant cp == subs[..i]
      {
        cp := cp + [subs[i]];
      }
    }

    /** Split a billed amount over the user's subscriptions and deduct the split, as one step. */
    method Attribute(userID: Int64, billed: Int64, bucketAt: Instant) returns (rows: seq<LedgerRow>)
      requires Valid()
      modifies this
      ensures Valid() && ladders == Step(old(ladders), Op.Attribute(userID, billed, bucketAt))
      ensures rows == Emitted(old(ladders), Op.Attribute(userID, billed, bucketAt))
    {
      StepKeepsPrepared(ladders, Op.Attribute(userID, billed, bucketAt));
      if billed <= 0 {
        return [];
      }
      if userID !in ladders {
        return [LedgerRow(OVERFLOW_SUBSCRIPTION_ID, billed)];
      }
      rows := Quota.Attribute(billed, ladders[userID], bucketAt);
      DeductAll(userID, rows, bucketAt);
    }

    /** The outer loop of `Attribute`: one deduction per row. */
    method DeductAll(userID: Int64, rows: seq<LedgerRow>, bucketAt: Instant)
      requires userID in ladders
      modifies this
      ensures ladders == old(ladders)[userID := Deducted(old(ladders)[userID], rows, Some(bucketAt), |rows|)]
    {
      for k := 0 to |rows|
        invariant ladders == old(ladders)[userID := Deducted(old(ladders)[userID], rows, Some(bucketAt), k)]
      {
        Deduct(userID, rows[k], bucketAt);
      }
    }

    /** The inner loop of `Attribute`: deduct one row from the first entry carrying its ID. */
    method Deduct(userID: Int64, r: LedgerRow, bucketAt: Instant)
      requires userID in ladders
      modifies this
      ensures ladders == old(ladders)[userID := DeductRow(old(ladders)[userID], r, Some(bucketAt))]
    {
      if r.subscriptionId == OVERFLOW_SUBSCRIPTION_ID {
        return;
      }
      var subs := ladders[userID];
      for i := 0 to |subs|
        invariant ladders == old(ladders)
        invariant forall j :: 0 <= j < i ==> subs[j].id != r.subscriptionId
      {
        if subs[i].id != r.subscriptionId {
          continue;
        }
        EntryIsFirst(subs, r.subscriptionId, i);
        if CountsTowardCurrentPeriod(bucketAt, subs[i].lastResetAt) {
          ladders := ladders[userID := subs[i := subs[i].(usedBytes := Wrap64(subs[i].usedBytes + r.billed))]];
        }
        return;
      }
      assert EntryIndex(subs, r.subscriptionId) == |subs|;
    }

    method Reconcile(userID: Int64, subscriptionID: Int64, usedBytes: Int64) returns (found: bool)
      requires Valid()
      modifies this
      ensures Valid() && ladders == Step(old(ladders), Op.Reconcile(userID, subscriptionID, usedBytes))
      ensures found <==> Entry(Held(old(ladders), userID), subscriptionID).Some?
    {
      StepKeepsPrepared(ladders, Op.Reconcile(userID, subscriptionID, usedBytes));
      var subs := if userID in ladders then ladders[userID] else [];
      for i := 0 to |subs|
        invariant ladders == old(ladders)
        invariant forall j :: 0 <= j < i ==> subs[j].id != subscriptionID
      {
        if subs[i].id == subscriptionID {
          EntryIsFirst(subs, subscriptionID, i);
          ladders := ladders[userID := subs[i := subs[i].(usedBytes := usedBytes)]];
          return true;
        }
      }
      assert EntryIndex(subs, subscriptionID) == |subs|;
      return false;
    }

    method Reset(userID: Int64, subscriptionID: Int64, epoch: Int32, resetAt: Instant) returns (found: bool)
      requires Valid()
      modifies this
      ensures Valid() && ladders == Step(old(ladders), Op.Reset(userID, subscriptionID, epoch, resetAt))
      ensures found <==> Entry(Held(old(ladders), userID), subscriptionID).Some?
    {
      StepKeepsPrepared(ladders, Op.Reset(userID, subscriptionID, epoch, resetAt));
      var subs := if userID in ladders then ladders[userID] else [];
      for i := 0 to |subs|
        invariant ladders == old(ladders)
        invariant forall j :: 0 <= j < i ==> subs[j].id != subscriptionID
      {
        if subs[i].id == subscriptionID {
          EntryIsFirst(subs, subscriptionID, i);
          var aligned := AlignBucket(resetAt);
          ladders := ladders[userID := subs[i := subs[i].(usedBytes := 0, resetEpoch := epoch,
                                                          lastResetAt := Some(aligned))]];
          return true;
        }
      }
      assert EntryIndex(subs, subscriptionID) == |subs|;
      return false;
    }
  }

  /** Copy, drop repeated IDs, and sort. */
  method PrepareSet(subs: seq<SubQuota>) returns (out: seq<SubQuota>)
    ensures out == Prepare(subs)
  {
    out := [];
    var seen: set<Int64> := {};
    for k := 0 to |subs|
      invariant out == Dedup(subs[..k])
      invariant forall id: Int64 :: id in seen <==> exists j :: 0 <= j < k && subs[j].id == id
    {
      assert subs[..k + 1][..k] == subs[..k];
      if subs[k].id in seen {
        continue;
      }
      seen := seen + {subs[k].id};
      out := out + [subs[k]];
    }
    assert subs[..|subs|] == subs;
    var a := new SubQuota[|out|](i requires 0 <= i < |out| => out[i]);
    assert a[..] == out;
    SortForDeduction(a);
    out := a[..];
  }

  /** The counter held for every ID. */
  ghost predicate KnownCounters(known: map<Int64, Int64>, held: seq<SubQuota>, k: nat)
    requires k <= |held|
  {
    && (forall id: Int64 :: id in known <==> exists j :: 0 <= j < k && held[j].id == id)
    && (forall j :: 0 <= j < k ==> held[j].id in known && known[held[j].id] == held[j].usedBytes)
  }

  method Counters(held: seq<SubQuota>) returns (known: map<Int64, Int64>)
    requires DistinctIds(held)
    ensures KnownCounters(known, held, |held|)
  {
    known := map[];
    for k := 0 to |held|
      invariant KnownCounters(known, held, k)
    {
      known := known[held[k].id := held[k].usedBytes];
    }
  }

  /** Replace the counters of the subscriptions already known about. */
  method Overlay(prepared: seq<SubQuota>, known: map<Int64, Int64>, ghost held: seq<SubQuota>)
    returns (next: seq<SubQuota>)
    requires DistinctIds(held) && KnownCounters(known, held, |held|)
    ensures next == CarryCounters(prepared, held)
  {
    next := prepared;
    for i := 0 to |next|
      invariant |next| == |prepared|
      invariant forall j :: 0 <= j < i ==> next[j] == Carried(prepared[j], held)
      invariant forall j :: i <= j < |next| ==> next[j] == prepared[j]
    {
      KnownIsEntry(held, known, prepared[i]);
      if next[i].id in known {
        next := next[i := next[i].(usedBytes := known[next[i].id])];
      }
    }
  }

  /** With distinct IDs, the map built from a held set answers as the lookup does. */
  lemma KnownIsEntry(held: seq<SubQuota>, known: map<Int64, Int64>, s: SubQuota)
    requires DistinctIds(held) && KnownCounters(known, held, |held|)
    ensures Carried(s, held) == if s.id in known then s.(usedBytes := known[s.id]) else s
  {
  }
}
