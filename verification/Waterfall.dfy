/**
  Spending an amount down a list of allowances, each with an expiry, in list order.

  `Share` says in closed form what entry `i` contributes: what the first `i + 1` live
  entries can cover of the amount, less what the first `i` can. It is the reference that
  the attribution loop, the ladder and every statement about whole runs are proved against.
 */
module Waterfall {
  import opened MachineInts
  import opened Options

  /** Nanoseconds since Go's zero time, 1 January of year 1, midnight UTC. */
  type Instant = int

  /** Whether an allowance expiring at `e` (None: never) can still be spent at `at`. */
  predicate Live(e: Option<Instant>, at: Instant) {
    e.None? || e.value > at
  }

  /** What the live ones among the first `k` entries hold. */
  function LiveSum(xs: seq<nat>, exp: seq<Option<Instant>>, at: Instant, k: nat): nat
    requires k <= |xs| == |exp|
  {
    if k == 0 then 0
    else LiveSum(xs, exp, at, k - 1) + if Live(exp[k - 1], at) then xs[k - 1] else 0
  }

  function Share(xs: seq<nat>, exp: seq<Option<Instant>>, at: Instant, billed: nat, i: nat): nat
    requires i < |xs| == |exp|
  {
    Min(billed, LiveSum(xs, exp, at, i + 1)) - Min(billed, LiveSum(xs, exp, at, i))
  }

  function Shares(xs: seq<nat>, exp: seq<Option<Instant>>, at: Instant, billed: nat): seq<nat>
    requires |xs| == |exp|
  {
    seq(|xs|, i requires 0 <= i < |xs| => Share(xs, exp, at, billed, i))
  }

  /** The part of `billed` that no live entry covers. */
  function Uncovered(xs: seq<nat>, exp: seq<Option<Instant>>, at: Instant, billed: nat): nat
    requires |xs| == |exp|
  {
    billed - Min(billed, LiveSum(xs, exp, at, |xs|))
  }

  predicate Within(ys: seq<nat>, xs: seq<nat>) {
    |ys| == |xs| && forall i :: 0 <= i < |xs| ==> ys[i] <= xs[i]
  }

  function Less(xs: seq<nat>, ys: seq<nat>): seq<nat>
    requires Within(ys, xs)
  {
    seq(|xs|, i requires 0 <= i < |xs| => xs[i] - ys[i])
  }

  lemma {:induction false} LiveSumMonotone(xs: seq<nat>, exp: seq<Option<Instant>>, at: Instant, j: nat, k: nat)
    requires j <= k <= |xs| == |exp|
    ensures LiveSum(xs, exp, at, j) <= LiveSum(xs, exp, at, k)
  {
    if j < k {
      LiveSumMonotone(xs, exp, at, j, k - 1);
    }
  }

  lemma {:induction false} LiveSumLess(xs: seq<nat>, ys: seq<nat>, exp: seq<Option<Instant>>, at: Instant, k: nat)
    requires Within(ys, xs) && k <= |xs| == |exp|
    ensures LiveSum(Less(xs, ys), exp, at, k) == LiveSum(xs, exp, at, k) - LiveSum(ys, exp, at, k)
  {
    if k > 0 {
      LiveSumLess(xs, ys, exp, at, k - 1);
    }
  }

  /** A share never exceeds its entry, and an expired entry contributes nothing. */
  lemma SharesWithin(xs: seq<nat>, exp: seq<Option<Instant>>, at: Instant, billed: nat)
    requires |xs| == |exp|
    ensures Within(Shares(xs, exp, at, billed), xs)
    ensures forall i :: 0 <= i < |xs| && !Live(exp[i], at) ==> Shares(xs, exp, at, billed)[i] == 0
  {
  }

  lemma {:induction false} LiveSumShares(xs: seq<nat>, exp: seq<Option<Instant>>, at: Instant, billed: nat, k: nat)
    requires k <= |xs| == |exp|
    ensures LiveSum(Shares(xs, exp, at, billed), exp, at, k) == Min(billed, LiveSum(xs, exp, at, k))
  {
    if k > 0 {
      LiveSumShares(xs, exp, at, billed, k - 1);
    }
  }

  /** An entry is reached only when every earlier live entry is drained. */
  lemma SharesInOrder(xs: seq<nat>, exp: seq<Option<Instant>>, at: Instant, billed: nat, i: nat, j: nat)
    requires i < j < |xs| == |exp|
    requires Live(exp[i], at) && Shares(xs, exp, at, billed)[j] > 0
    ensures Shares(xs, exp, at, billed)[i] == xs[i]
  {
    LiveSumMonotone(xs, exp, at, i + 1, j);
  }

  /** Nothing stays uncovered unless every live entry is drained. */
  lemma UncoveredMeansDrained(xs: seq<nat>, exp: seq<Option<Instant>>, at: Instant, billed: nat, i: nat)
    requires i < |xs| == |exp|
    requires Live(exp[i], at) && Uncovered(xs, exp, at, billed) > 0
    ensures Shares(xs, exp, at, billed)[i] == xs[i]
  {
    LiveSumMonotone(xs, exp, at, i + 1, |xs|);
  }

  /** What a split must satisfy to be called greedy, without saying how it is computed. */
  ghost predicate GreedySplit(ys: seq<nat>, over: nat, xs: seq<nat>, exp: seq<Option<Instant>>, at: Instant,
                              billed: nat)
    requires |xs| == |exp|
  {
    && Within(ys, xs)
    && (forall i :: 0 <= i < |xs| && !Live(exp[i], at) ==> ys[i] == 0)
    && LiveSum(ys, exp, at, |xs|) + over == billed
    && (forall i, j :: 0 <= i < j < |xs| && Live(exp[i], at) && ys[j] > 0 ==> ys[i] == xs[i])
    && (over > 0 ==> forall i :: 0 <= i < |xs| && Live(exp[i], at) ==> ys[i] == xs[i])
  }

  lemma SharesAreGreedy(xs: seq<nat>, exp: seq<Option<Instant>>, at: Instant, billed: nat)
    requires |xs| == |exp|
    ensures GreedySplit(Shares(xs, exp, at, billed), Uncovered(xs, exp, at, billed), xs, exp, at, billed)
  {
    SharesWithin(xs, exp, at, billed);
    LiveSumShares(xs, exp, at, billed, |xs|);
    forall i, j | 0 <= i < j < |xs| && Live(exp[i], at) && Shares(xs, exp, at, billed)[j] > 0
      ensures Shares(xs, exp, at, billed)[i] == xs[i]
    {
      SharesInOrder(xs, exp, at, billed, i, j);
    }
    forall i | 0 <= i < |xs| && Live(exp[i], at) && Uncovered(xs, exp, at, billed) > 0
      ensures Shares(xs, exp, at, billed)[i] == xs[i]
    {
      UncoveredMeansDrained(xs, exp, at, billed, i);
    }
  }

  /** The greedy conditions leave no choice: each prefix is drained exactly as far as the amount reaches. */
  lemma {:induction false} GreedyPrefix(ys: seq<nat>, over: nat, xs: seq<nat>, exp: seq<Option<Instant>>, at: Instant,
                                        billed: nat, k: nat)
    requires k <= |xs| == |exp|
    requires GreedySplit(ys, over, xs, exp, at, billed)
    ensures LiveSum(ys, exp, at, k) == Min(billed, LiveSum(xs, exp, at, k))
  {
    LiveSumMonotone(ys, exp, at, k, |ys|);
    if k > 0 {
      GreedyPrefix(ys, over, xs, exp, at, billed, k - 1);
      if Live(exp[k - 1], at) && ys[k - 1] < xs[k - 1] {
        NothingBeyond(ys, exp, at, k, |ys|);
      }
    }
  }

  lemma {:induction false} NothingBeyond(ys: seq<nat>, exp: seq<Option<Instant>>, at: Instant, j: nat, k: nat)
    requires j <= k <= |ys| == |exp|
    requires forall i :: j <= i < k && Live(exp[i], at) ==> ys[i] == 0
    ensures LiveSum(ys, exp, at, j) == LiveSum(ys, exp, at, k)
  {
    if j < k {
      NothingBeyond(ys, exp, at, j, k - 1);
    }
  }

  lemma GreedySplitIsUnique(ys: seq<nat>, over: nat, xs: seq<nat>, exp: seq<Option<Instant>>, at: Instant, billed: nat)
    requires |xs| == |exp|
    requires GreedySplit(ys, over, xs, exp, at, billed)
    ensures ys == Shares(xs, exp, at, billed)
    ensures over == Uncovered(xs, exp, at, billed)
  {
    forall i | 0 <= i < |xs|
      ensures ys[i] == Shares(xs, exp, at, billed)[i]
    {
      GreedyPrefix(ys, over, xs, exp, at, billed, i);
      GreedyPrefix(ys, over, xs, exp, at, billed, i + 1);
    }
    GreedyPrefix(ys, over, xs, exp, at, billed, |xs|);
  }

  lemma {:induction false} RestSum(xs: seq<nat>, exp: seq<Option<Instant>>, at: Instant, b: nat, k: nat)
    requires k <= |xs| == |exp| && Within(Shares(xs, exp, at, b), xs)
    ensures LiveSum(Less(xs, Shares(xs, exp, at, b)), exp, at, k) == Max(0, LiveSum(xs, exp, at, k) - b)
  {
    LiveSumLess(xs, Shares(xs, exp, at, b), exp, at, k);
    LiveSumShares(xs, exp, at, b, k);
  }

  lemma ShareComposes(xs: seq<nat>, exp: seq<Option<Instant>>, at: Instant, b: nat, c: nat, rest: seq<nat>, i: nat)
    requires i < |xs| == |exp| && Within(Shares(xs, exp, at, b), xs) && rest == Less(xs, Shares(xs, exp, at, b))
    ensures Share(xs, exp, at, b, i) + Share(rest, exp, at, c, i) == Share(xs, exp, at, b + c, i)
  {
    RestSum(xs, exp, at, b, i);
    RestSum(xs, exp, at, b, i + 1);
  }

  /** Spending `b` and then `c` at one instant takes from every entry what spending `b + c` takes. */
  lemma SharesCompose(xs: seq<nat>, exp: seq<Option<Instant>>, at: Instant, b: nat, c: nat, rest: seq<nat>)
    requires |xs| == |exp| && Within(Shares(xs, exp, at, b), xs) && rest == Less(xs, Shares(xs, exp, at, b))
    ensures forall i :: 0 <= i < |xs| ==>
              Share(xs, exp, at, b, i) + Share(rest, exp, at, c, i) == Share(xs, exp, at, b + c, i)
    ensures Uncovered(xs, exp, at, b) + Uncovered(rest, exp, at, c) == Uncovered(xs, exp, at, b + c)
  {
    forall i | 0 <= i < |xs|
      ensures Share(xs, exp, at, b, i) + Share(rest, exp, at, c, i) == Share(xs, exp, at, b + c, i)
    {
      ShareComposes(xs, exp, at, b, c, rest, i);
    }
    RestSum(xs, exp, at, b, |xs|);
  }
}
