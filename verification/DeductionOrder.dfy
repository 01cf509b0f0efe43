/** The deduction sequence: soonest-expiring packs, then the primary (internal/domain/quota.go). */
module DeductionOrder {
  import opened Quota
  import opened Sequences

  function KindRank(k: SubKind): nat {
    match k
    case DataPack => 0
    case Primary => 1
    case Other(_) => 2
  }

  /** The comparator handed to the sort. */
  predicate DeductsBefore(a: SubQuota, b: SubQuota) {
    if KindRank(a.kind) != KindRank(b.kind) then KindRank(a.kind) < KindRank(b.kind)
    else if a.kind.DataPack? && a.expiredAt != b.expiredAt then
      a.expiredAt.Some? && (b.expiredAt.None? || a.expiredAt.value < b.expiredAt.value)
    else a.id < b.id
  }

  /** Neither goes before the other. */
  predicate Tied(a: SubQuota, b: SubQuota) {
    !DeductsBefore(a, b) && !DeductsBefore(b, a)
  }

  /** A strict weak order for every kind, known or not; total on distinct IDs. */
  lemma StrictWeakOrder(a: SubQuota, b: SubQuota, c: SubQuota)
    ensures !DeductsBefore(a, a)
    ensures DeductsBefore(a, b) && DeductsBefore(b, c) ==> DeductsBefore(a, c)
    ensures Tied(a, b) && Tied(b, c) ==> Tied(a, c)
    ensures a.id != b.id ==> DeductsBefore(a, b) || DeductsBefore(b, a)
  {
  }

  ghost predicate InOrder(s: seq<SubQuota>) {
    forall i, j :: 0 <= i < j < |s| ==> !DeductsBefore(s[j], s[i])
  }

  /** Insert after every element that does not have to come later, so equals keep their order. */
  function Insert(s: seq<SubQuota>, x: SubQuota): (r: seq<SubQuota>)
    ensures multiset(r) == multiset(s + [x])
  {
    if s == [] then [x]
    else
      var last := s[|s| - 1];
      assert s == s[..|s| - 1] + [last];
      if DeductsBefore(x, last) then Insert(s[..|s| - 1], x) + [last] else s + [x]
  }

  lemma {:induction false} InsertPasses(s: seq<SubQuota>, x: SubQuota)
    requires s != [] && DeductsBefore(x, s[|s| - 1])
    ensures Insert(s, x) == Insert(s[..|s| - 1], x) + [s[|s| - 1]]
  {
  }

  lemma {:induction false} InsertStops(s: seq<SubQuota>, x: SubQuota)
    requires s == [] || !DeductsBefore(x, s[|s| - 1])
    ensures Insert(s, x) == s + [x]
  {
  }

  /** The stable sort as a function of the slice. */
  function Sorted(s: seq<SubQuota>): (r: seq<SubQuota>)
    ensures multiset(r) == multiset(s)
  {
    if s == [] then [] else
      assert s == s[..|s| - 1] + [s[|s| - 1]];
      Insert(Sorted(s[..|s| - 1]), s[|s| - 1])
  }

  /** Not having to come before is transitive. */
  lemma NotBeforeTransitive(a: SubQuota, b: SubQuota, c: SubQuota)
    requires !DeductsBefore(b, a) && !DeductsBefore(c, b)
    ensures !DeductsBefore(c, a)
  {
  }

  lemma AppendInOrder(s: seq<SubQuota>, x: SubQuota)
    requires InOrder(s) && forall i :: 0 <= i < |s| ==> !DeductsBefore(x, s[i])
    ensures InOrder(s + [x])
  {
  }

  lemma {:induction false} InsertInOrder(s: seq<SubQuota>, x: SubQuota)
    requires InOrder(s)
    ensures InOrder(Insert(s, x))
  {
    if s == [] {
      InsertStops(s, x);
    } else if DeductsBefore(x, s[|s| - 1]) {
      var init, last := s[..|s| - 1], s[|s| - 1];
      InsertInOrder(init, x);
      InsertPasses(s, x);
      var r := Insert(init, x);
      forall i | 0 <= i < |r|
        ensures !DeductsBefore(last, r[i])
      {
        var j := MultisetMember(r, init + [x], i);
        StrictWeakOrder(x, last, x);
      }
      AppendInOrder(r, last);
    } else {
      InsertStops(s, x);
      forall i | 0 <= i < |s|
        ensures !DeductsBefore(x, s[i])
      {
        if i < |s| - 1 {
          NotBeforeTransitive(s[i], s[|s| - 1], x);
        }
      }
      AppendInOrder(s, x);
    }
  }

  lemma {:induction false} SortedInOrder(s: seq<SubQuota>)
    ensures InOrder(Sorted(s))
  {
    if s != [] {
      SortedInOrder(s[..|s| - 1]);
      InsertInOrder(Sorted(s[..|s| - 1]), s[|s| - 1]);
    }
  }

  /**
    The deduction sequence: packs, then the primary, then unknown kinds; packs by expiry with
    the permanent ones last; what these leave open by ID, the lower first.
   */
  lemma {:induction false} DeductionSequence(s: seq<SubQuota>, i: nat, j: nat)
    requires i < j < |s|
    ensures |Sorted(s)| == |s|
    ensures var a, b := Sorted(s)[i], Sorted(s)[j];
            && (b.kind.DataPack? ==> a.kind.DataPack?)
            && (b.kind.Primary? ==> a.kind.DataPack? || a.kind.Primary?)
            && (a.kind.DataPack? && b.kind.DataPack? ==>
                  || a.expiredAt == b.expiredAt
                  || (a.expiredAt.Some? && (b.expiredAt.Some? ==> a.expiredAt.value < b.expiredAt.value)))
            && (a.kind.DataPack? && b.kind.DataPack? && a.expiredAt == b.expiredAt ==> a.id <= b.id)
            && (a.kind.Primary? && b.kind.Primary? ==> a.id <= b.id)
            && (a.kind.Other? && b.kind.Other? ==> a.id <= b.id)
  {
    SortedInOrder(s);
    MultisetLength(Sorted(s), s);
    hide Sorted;
    assert !DeductsBefore(Sorted(s)[j], Sorted(s)[i]);
  }

  // ----- stability

  function TiedWith(x: SubQuota, s: seq<SubQuota>): seq<SubQuota> {
    if s == [] then []
    else TiedWith(x, s[..|s| - 1]) + if Tied(x, s[|s| - 1]) then [s[|s| - 1]] else []
  }

  lemma {:induction false} TiedWithAppend(x: SubQuota, s: seq<SubQuota>, y: SubQuota)
    ensures TiedWith(x, s + [y]) == TiedWith(x, s) + if Tied(x, y) then [y] else []
  {
  }

  /** Two elements that are tied with a third are tied with each other. */
  lemma NotBothTied(x: SubQuota, y: SubQuota, z: SubQuota)
    requires DeductsBefore(y, z)
    ensures !(Tied(x, y) && Tied(x, z))
  {
  }

  lemma {:induction false} SwapUntied(s: seq<SubQuota>, y: SubQuota, z: SubQuota, x: SubQuota)
    requires !(Tied(x, y) && Tied(x, z))
    ensures TiedWith(x, s + [y] + [z]) == TiedWith(x, s + [z] + [y])
  {
  }

  lemma {:induction false} InsertKeepsTies(s: seq<SubQuota>, y: SubQuota, x: SubQuota)
    ensures TiedWith(x, Insert(s, y)) == TiedWith(x, s + [y])
  {
    if s == [] {
      InsertStops(s, y);
    } else if DeductsBefore(y, s[|s| - 1]) {
      var init, last := s[..|s| - 1], s[|s| - 1];
      InsertPasses(s, y);
      InsertKeepsTies(init, y, x);
      TiedWithAppend(x, Insert(init, y), last);
      TiedWithAppend(x, init + [y], last);
      NotBothTied(x, y, last);
      SwapUntied(init, y, last, x);
      assert init + [last] == s;
    } else {
      InsertStops(s, y);
    }
  }

  lemma {:induction false} SortedKeepsTies(s: seq<SubQuota>, x: SubQuota)
    ensures TiedWith(x, Sorted(s)) == TiedWith(x, s)
  {
    if s != [] {
      var init, last := s[..|s| - 1], s[|s| - 1];
      SortedKeepsTies(init, x);
      InsertKeepsTies(Sorted(init), last, x);
      TiedWithAppend(x, Sorted(init), last);
    }
  }

  // ----- the order is determined by the set

  lemma SameFirst(s: seq<SubQuota>, t: seq<SubQuota>)
    requires InOrder(s) && InOrder(t) && DistinctIds(s) && multiset(s) == multiset(t) && s != [] && t != []
    ensures s[0] == t[0]
  {
    var i := MultisetMember(t, s, 0);
    var j := MultisetMember(s, t, 0);
    StrictWeakOrder(s[0], t[0], s[0]);
  }

  lemma {:induction false} OrderedIsUnique(s: seq<SubQuota>, t: seq<SubQuota>)
    requires InOrder(s) && InOrder(t) && DistinctIds(s) && multiset(s) == multiset(t)
    ensures s == t
  {
    MultisetLength(s, t);
    if s != [] {
      SameFirst(s, t);
      SameTails(s, t);
      OrderedIsUnique(s[1..], t[1..]);
      assert s == [s[0]] + s[1..] && t == [t[0]] + t[1..];
    }
  }

  lemma DistinctIdsPermuted(s: seq<SubQuota>, t: seq<SubQuota>)
    requires multiset(s) == multiset(t) && DistinctIds(s)
    ensures DistinctIds(t)
  {
    forall i, j | 0 <= i < j < |t|
      ensures t[i].id != t[j].id
    {
      if t[i].id == t[j].id {
        var p := MultisetMember(t, s, i);
        var q := MultisetMember(t, s, j);
        assert p == q;
        TwiceInMultiset(t, i, j);
        OnceInMultiset(s, p);
      }
    }
  }

  lemma TwiceInMultiset(t: seq<SubQuota>, i: nat, j: nat)
    requires i < j < |t| && t[i] == t[j]
    ensures multiset(t)[t[i]] >= 2
  {
    assert t == t[..j] + [t[j]] + t[j + 1..];
    assert t[i] in t[..j];
    assert t[i] in multiset(t[..j]);
  }

  lemma OnceInMultiset(s: seq<SubQuota>, p: nat)
    requires p < |s| && DistinctIds(s)
    ensures multiset(s)[s[p]] == 1
  {
    assert s == s[..p] + [s[p]] + s[p + 1..];
    assert s[p] !in multiset(s[..p]);
    assert s[p] !in multiset(s[p + 1..]);
  }

  /** Arrival order does not matter: the sequence is a function of the set of subscriptions. */
  lemma {:induction false} SortedIgnoresArrival(s: seq<SubQuota>, t: seq<SubQuota>)
    requires DistinctIds(s) && multiset(s) == multiset(t)
    ensures Sorted(s) == Sorted(t)
  {
    SortedInOrder(s);
    SortedInOrder(t);
    DistinctIdsPermuted(s, Sorted(s));
    OrderedIsUnique(Sorted(s), Sorted(t));
  }

  // ----- in place

  method SortForDeduction(subs: array<SubQuota>)
    modifies subs
    ensures subs[..] == Sorted(old(subs[..]))
  {
    hide Sorted, Insert, DeductsBefore;
    ghost var before := subs[..];
    NothingToSort();
    for n := 0 to subs.Length
      invariant subs[..] == Sorted(before[..n]) + before[n..]
    {
      SortedPrefix(before, n);
      Sink(subs, n, Sorted(before[..n]), before[n + 1..]);
    }
    assert before[..subs.Length] == before;
  }

  lemma NothingToSort()
    ensures Sorted([]) == []
  {
  }

  lemma SortedPrefix(s: seq<SubQuota>, n: nat)
    requires n < |s|
    ensures |Sorted(s[..n])| == n
    ensures Sorted(s[..n + 1]) == Insert(Sorted(s[..n]), s[n])
    ensures Sorted(s[..n]) + s[n..] == Sorted(s[..n]) + [s[n]] + s[n + 1..]
  {
    hide Insert, DeductsBefore;
    MultisetLength(Sorted(s[..n]), s[..n]);
    assert s[..n + 1][..n] == s[..n];
  }

  /** The slice while `x` is on its way down from behind `front`. */
  ghost predicate Sinking(a: seq<SubQuota>, front: seq<SubQuota>, x: SubQuota, passed: seq<SubQuota>,
                          back: seq<SubQuota>, j: nat)
  {
    && j <= |front| && |passed| == |front| - j
    && a == front[..j] + [x] + passed + back
    && Insert(front, x) == Insert(front[..j], x) + passed
  }

  /** Move `subs[n]` down past the elements it goes before; `front` is sorted, `back` is not looked at. */
  method Sink(subs: array<SubQuota>, n: nat, ghost front: seq<SubQuota>, ghost back: seq<SubQuota>)
    requires n < subs.Length && |front| == n
    requires subs[..] == front + [subs[n]] + back
    modifies subs
    ensures subs[..] == Insert(front, old(subs[n])) + back
  {
    var j := n;
    ghost var x, passed := subs[n], [];
    assert front[..n] == front;
    while j > 0 && DeductsBefore(subs[j], subs[j - 1])
      invariant 0 <= j <= n
      invariant Sinking(subs[..], front, x, passed, back, j)
    {
      SinkStep(subs[..], front, x, passed, back, j);
      ghost var a := subs[..];
      subs[j], subs[j - 1] := subs[j - 1], subs[j];
      assert subs[..] == a[j := a[j - 1]][j - 1 := a[j]];
      passed := [front[j - 1]] + passed;
      j := j - 1;
    }
    SinkDone(subs[..], front, x, passed, back, j);
  }

  lemma SinkStep(a: seq<SubQuota>, front: seq<SubQuota>, x: SubQuota, passed: seq<SubQuota>, back: seq<SubQuota>,
                 j: nat)
    requires Sinking(a, front, x, passed, back, j)
    requires 0 < j && DeductsBefore(a[j], a[j - 1])
    ensures Sinking(a[j := a[j - 1]][j - 1 := a[j]], front, x, [front[j - 1]] + passed, back, j - 1)
  {
    SwapDown(a, front, x, passed, back, j);
    InsertPasses(front[..j], x);
    Regroup(Insert(front[..j - 1], x), front[j - 1], passed);
  }

  lemma SwapDown<T>(a: seq<T>, front: seq<T>, x: T, passed: seq<T>, back: seq<T>, j: nat)
    requires 0 < j <= |front| && a == front[..j] + [x] + passed + back
    ensures a[j] == x && a[j - 1] == front[j - 1]
    ensures a[j := a[j - 1]][j - 1 := x] == front[..j - 1] + [x] + ([front[j - 1]] + passed) + back
    ensures front[..j][..j - 1] == front[..j - 1] && front[..j][j - 1] == front[j - 1]
  {
  }

  lemma Regroup<T>(s: seq<T>, x: T, t: seq<T>)
    ensures s + [x] + t == s + ([x] + t)
  {
  }

  lemma {:induction false} SinkDone(a: seq<SubQuota>, front: seq<SubQuota>, x: SubQuota, passed: seq<SubQuota>,
                                    back: seq<SubQuota>, j: nat)
    requires Sinking(a, front, x, passed, back, j)
    requires j == 0 || !DeductsBefore(a[j], a[j - 1])
    ensures a == Insert(front, x) + back
  {
  }
}
