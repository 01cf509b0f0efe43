/** When a subscription's allowance is next replenished (internal/domain/reset.go), under a fixed offset. */
module ResetSchedule {
  import opened Options
  import opened Waterfall
  import opened Buckets
  import opened Calendar

  datatype ResetPolicy = MonthlyFirst | MonthlySignup | Never | UnknownPolicy(name: string)

  /** Go's zero time. */
  const ZERO_TIME: Instant := 0

  /** The reset of one month: a day past the month's end falls back to its last. */
  function MonthlyAnchor(year: int, month: int, day: int, loc: Option<int>): Instant {
    var lastDay := DayOfMonth(Date(year, month + 1, 0, loc), loc);
    Date(year, month, if day > lastDay then lastDay else day, loc)
  }

  function NextReset(policy: ResetPolicy, signup: Instant, now: Instant, loc: Option<int>): Instant {
    match policy
    case Never => ZERO_TIME
    case MonthlyFirst =>
      AlignBucket(AddDate(Date(Year(now, loc), Month(now, loc), 1, loc), 1, 0, loc))
    case MonthlySignup =>
      var next := MonthlyAnchor(Year(now, loc), Month(now, loc), DayOfMonth(signup, loc), loc);
      if next > now then AlignBucket(next)
      else
        var m := Month(now, loc) + 1;
        var (y', m') := if m > 12 then (Year(now, loc) + 1, 1) else (Year(now, loc), m);
        AlignBucket(MonthlyAnchor(y', m', DayOfMonth(signup, loc), loc))
    case UnknownPolicy(_) => ZERO_TIME
  }

  // ----- anchors

  /** The month an instant falls in. */
  function MonthIndex(t: Instant, loc: Option<int>): int {
    MonthOf(LocalDay(t, loc))
  }

  /** The anchor of month `k`: local midnight on day `day`, or on the month's last day if it is shorter. */
  function Anchor(k: int, day: int, loc: Option<int>): Instant {
    (MonthStart(k) + (if day > MonthLength(k) then MonthLength(k) else day) - 1) * DAY - Offset(loc)
  }

  lemma MonthlyAnchorIsAnchor(year: int, month: int, day: int, loc: Option<int>)
    ensures MonthlyAnchor(year, month, day, loc) == Anchor(12 * year + month - 1, day, loc)
  {
    var k := 12 * year + month - 1;
    hide MonthStart, MonthLength, MonthOf, Date, LocalDay;
    DateIsLocalDay(year, month + 1, 0, loc);
    MonthsAbut(k);
    MonthOfIsUnique(MonthStart(k) + MonthLength(k) - 1, k);
    assert DayOfMonth(Date(year, month + 1, 0, loc), loc) == MonthLength(k);
    DateUnfolded(year, month, if day > MonthLength(k) then MonthLength(k) else day, loc);
  }

  lemma DateUnfolded(year: int, month: int, day: int, loc: Option<int>)
    ensures Date(year, month, day, loc) == (MonthStart(12 * year + month - 1) + day - 1) * DAY - Offset(loc)
  {
  }

  /** An anchor is local midnight in its month, on the clamped day. */
  lemma AnchorDate(k: int, day: int, loc: Option<int>)
    requires day >= 1
    ensures MonthIndex(Anchor(k, day, loc), loc) == k
    ensures DayOfMonth(Anchor(k, day, loc), loc) == if day > MonthLength(k) then MonthLength(k) else day
    ensures (Anchor(k, day, loc) + Offset(loc)) % DAY == 0
  {
    hide MonthStart, MonthLength, MonthOf;
    MonthsAbut(k);
    var d := if day > MonthLength(k) then MonthLength(k) else day;
    var n := MonthStart(k) + d - 1;
    assert Anchor(k, day, loc) + Offset(loc) == n * DAY;
    assert LocalDay(Anchor(k, day, loc), loc) == n;
    MonthOfIsUnique(n, k);
  }

  lemma AnchorsIncrease(j: int, k: int, day: int, loc: Option<int>)
    requires day >= 1 && j < k
    ensures Anchor(j, day, loc) < Anchor(k, day, loc)
  {
    hide MonthStart, MonthLength;
    MonthsAbut(j);
    MonthsAbut(k);
    MonthStartsIncrease(j, k);
  }

  lemma LocalDayBounds(t: Instant, loc: Option<int>)
    ensures LocalDay(t, loc) * DAY <= t + Offset(loc) < (LocalDay(t, loc) + 1) * DAY
  {
  }

  /** The anchors of earlier months are not after an instant, those of later months are. */
  lemma AnchorsAround(k: int, day: int, t: Instant, loc: Option<int>)
    requires day >= 1
    ensures k < MonthIndex(t, loc) ==> Anchor(k, day, loc) <= t
    ensures k > MonthIndex(t, loc) ==> Anchor(k, day, loc) > t
  {
    hide MonthStart, MonthLength, MonthOf, LocalDay;
    var m := MonthIndex(t, loc);
    MonthOfContains(LocalDay(t, loc));
    LocalDayBounds(t, loc);
    MonthsAbut(k);
    if k < m {
      MonthStartsIncrease(k, m);
    } else if k > m {
      MonthStartsIncrease(m, k);
    }
  }

  lemma SignupDay(signup: Instant, loc: Option<int>)
    ensures 1 <= DayOfMonth(signup, loc) <= 31
  {
    DateRoundTrip(signup, loc, loc);
    MonthsAbut(MonthOf(LocalDay(signup, loc)));
  }

  /** The month whose anchor is next: this one while its anchor is still ahead, else the following one. */
  function NextAnchorMonth(day: int, now: Instant, loc: Option<int>): int {
    var k := MonthIndex(now, loc);
    if Anchor(k, day, loc) > now then k else k + 1
  }

  /** No anchor lies between an instant and the next one. */
  lemma NextAnchorIsLeast(day: int, now: Instant, loc: Option<int>, k: int)
    requires day >= 1
    ensures Anchor(NextAnchorMonth(day, now, loc), day, loc) > now
    ensures Anchor(k, day, loc) > now <==> k >= NextAnchorMonth(day, now, loc)
  {
    hide Anchor, MonthIndex;
    AnchorsAround(k, day, now, loc);
    AnchorsAround(MonthIndex(now, loc) + 1, day, now, loc);
  }

  lemma YearAndMonth(t: Instant, loc: Option<int>)
    ensures 12 * Year(t, loc) + Month(t, loc) - 1 == MonthIndex(t, loc)
    ensures 1 <= Month(t, loc) <= 12
  {
  }

  /** For any offset, `NextReset` aligns the least anchor after now. */
  lemma NextResetAlignsNextAnchor(signup: Instant, now: Instant, loc: Option<int>)
    ensures var day := DayOfMonth(signup, loc);
            NextReset(MonthlySignup, signup, now, loc) == AlignBucket(Anchor(NextAnchorMonth(day, now, loc), day, loc))
  {
    var day := DayOfMonth(signup, loc);
    hide MonthlyAnchor, Anchor, Year, Month, MonthIndex, DayOfMonth, AlignBucket;
    var y, m := Year(now, loc), Month(now, loc);
    YearAndMonth(now, loc);
    MonthlyAnchorIsAnchor(y, m, day, loc);
    MonthlyAnchorIsAnchor(y, m + 1, day, loc);
    MonthlyAnchorIsAnchor(y + 1, 1, day, loc);
  }

  /** The offset of a location whose midnights are bucket boundaries. */
  predicate OnBuckets(loc: Option<int>) {
    Offset(loc) % BUCKET_SIZE == 0
  }

  lemma AnchorAligned(k: int, day: int, loc: Option<int>)
    requires OnBuckets(loc)
    ensures AlignBucket(Anchor(k, day, loc)) == Anchor(k, day, loc)
  {
    hide MonthStart, MonthLength, AlignBucket;
    MidnightOnBucket(MonthStart(k) + (if day > MonthLength(k) then MonthLength(k) else day) - 1, Offset(loc));
    AlignBucketIsFloor(Anchor(k, day, loc), Anchor(k, day, loc));
  }

  lemma MidnightOnBucket(n: int, offset: int)
    requires offset % BUCKET_SIZE == 0
    ensures (n * DAY - offset) % BUCKET_SIZE == 0
  {
  }

  /**
    Where midnights fall on bucket boundaries, `monthly_signup` yields the least anchor
    strictly after now: local midnight on the signup day of the month, clamped to the month.
   */
  lemma NextResetIsLeastAnchor(signup: Instant, now: Instant, loc: Option<int>, k: int)
    requires OnBuckets(loc)
    ensures var day, next := DayOfMonth(signup, loc), NextReset(MonthlySignup, signup, now, loc);
            && next > now
            && next % BUCKET_SIZE == 0
            && next == Anchor(NextAnchorMonth(day, now, loc), day, loc)
            && (Anchor(k, day, loc) > now ==> next <= Anchor(k, day, loc))
  {
    var day := DayOfMonth(signup, loc);
    var m := NextAnchorMonth(day, now, loc);
    hide Anchor, DayOfMonth, NextReset, NextAnchorMonth;
    SignupDay(signup, loc);
    NextResetAlignsNextAnchor(signup, now, loc);
    AnchorAligned(m, day, loc);
    NextAnchorIsLeast(day, now, loc, k);
    AlignBucketIsFloor(Anchor(m, day, loc), 0);
    if k > m {
      AnchorsIncrease(m, k, day, loc);
    }
  }

  /** Resetting `n` more times after the first reset past `now`. */
  function Iterated(n: nat, signup: Instant, now: Instant, loc: Option<int>): Instant {
    if n == 0 then NextReset(MonthlySignup, signup, now, loc)
    else NextReset(MonthlySignup, signup, Iterated(n - 1, signup, now, loc), loc)
  }

  /**
    Following resets one after the other visits every later calendar month exactly once, in
    order: the n-th lands in the n-th month after the first, at local midnight on the signup
    day, or on the last day of a month too short for it.
   */
  lemma {:induction false} ResetsVisitEveryMonth(n: nat, signup: Instant, now: Instant, loc: Option<int>)
    requires OnBuckets(loc)
    ensures var day, k := DayOfMonth(signup, loc), NextAnchorMonth(DayOfMonth(signup, loc), now, loc) + n;
            var t := Iterated(n, signup, now, loc);
            && t == Anchor(k, day, loc)
            && MonthIndex(t, loc) == k
            && DayOfMonth(t, loc) == (if day > MonthLength(k) then MonthLength(k) else day)
            && (t + Offset(loc)) % DAY == 0
  {
    var day := DayOfMonth(signup, loc);
    var k := NextAnchorMonth(day, now, loc) + n;
    hide Anchor, DayOfMonth, NextReset, MonthIndex, MonthLength;
    SignupDay(signup, loc);
    AnchorDate(k, day, loc);
    if n == 0 {
      NextResetIsLeastAnchor(signup, now, loc, k);
    } else {
      ResetsVisitEveryMonth(n - 1, signup, now, loc);
      NextResetIsLeastAnchor(signup, Iterated(n - 1, signup, now, loc), loc, k);
    }
  }

  /** `monthly_1st` is `monthly_signup` for anyone who signed up on the first of a month, whatever the offset. */
  lemma MonthlyFirstIsSignupOnFirst(signup: Instant, other: Instant, now: Instant, loc: Option<int>)
    requires DayOfMonth(signup, loc) == 1
    ensures NextReset(MonthlyFirst, other, now, loc) == NextReset(MonthlySignup, signup, now, loc)
  {
    var k := MonthIndex(now, loc);
    FirstOfMonth(now, loc);
    MonthsAbut(k);
    MonthsAbut(k + 1);
    ThisMonthBegan(now, loc);
    hide DayOfMonth, MonthIndex, MonthStart, MonthLength;
    NextResetAlignsNextAnchor(signup, now, loc);
  }

  lemma ThisMonthBegan(now: Instant, loc: Option<int>)
    ensures Anchor(MonthIndex(now, loc), 1, loc) <= now
  {
    hide MonthStart, MonthLength, MonthOf, LocalDay;
    var k := MonthIndex(now, loc);
    MonthOfContains(LocalDay(now, loc));
    MonthsAbut(k);
    LocalDayBounds(now, loc);
  }

  lemma FirstOfMonth(now: Instant, loc: Option<int>)
    ensures AddDate(Date(Year(now, loc), Month(now, loc), 1, loc), 1, 0, loc)
         == MonthStart(MonthIndex(now, loc) + 1) * DAY - Offset(loc)
  {
    hide MonthStart, MonthLength, MonthOf, DayOfMonth, Year, Month, LocalDay;
    var k := MonthIndex(now, loc);
    var first := Date(Year(now, loc), Month(now, loc), 1, loc);
    YearAndMonth(now, loc);
    MonthsAbut(k);
    AnchorDate(k, 1, loc);
    assert first == Anchor(k, 1, loc);
    YearAndMonth(first, loc);
  }

  /** For any offset and under every policy, later instants never have earlier resets. */
  lemma NextResetMonotone(policy: ResetPolicy, signup: Instant, now: Instant, later: Instant, loc: Option<int>)
    requires now <= later
    ensures NextReset(policy, signup, now, loc) <= NextReset(policy, signup, later, loc)
  {
    hide NextReset;
    match policy
    case MonthlySignup =>
      SignupResetMonotone(signup, now, later, loc);
    case MonthlyFirst =>
      MonthsAbut(0);
      AnchorDate(0, 1, loc);
      MonthlyFirstIsSignupOnFirst(Anchor(0, 1, loc), signup, now, loc);
      MonthlyFirstIsSignupOnFirst(Anchor(0, 1, loc), signup, later, loc);
      SignupResetMonotone(Anchor(0, 1, loc), now, later, loc);
    case _ =>
      NoScheduleIsZeroTime(policy, signup, now, loc);
      NoScheduleIsZeroTime(policy, signup, later, loc);
  }

  lemma SignupResetMonotone(signup: Instant, now: Instant, later: Instant, loc: Option<int>)
    requires now <= later
    ensures NextReset(MonthlySignup, signup, now, loc) <= NextReset(MonthlySignup, signup, later, loc)
  {
    var day := DayOfMonth(signup, loc);
    var j, k := NextAnchorMonth(day, now, loc), NextAnchorMonth(day, later, loc);
    hide Anchor, DayOfMonth, NextReset, NextAnchorMonth, AlignBucket;
    SignupDay(signup, loc);
    NextResetAlignsNextAnchor(signup, now, loc);
    NextResetAlignsNextAnchor(signup, later, loc);
    NextAnchorIsLeast(day, later, loc, k);
    NextAnchorIsLeast(day, now, loc, k);
    if j < k {
      AnchorsIncrease(j, k, day, loc);
    }
    AlignBucketIdempotentMonotone(Anchor(j, day, loc), Anchor(k, day, loc));
  }

  // ----- what the billing timezone does

  /** A clock `east` seconds east of UTC shows what UTC will show that much later. */
  lemma EastReadsAhead(t: Instant, east: int)
    ensures MonthIndex(t, Some(east)) == MonthIndex(t + east * SECOND, None)
    ensures DayOfMonth(t, Some(east)) == DayOfMonth(t + east * SECOND, None)
    ensures LocalDay(t, Some(east)) == LocalDay(t + east * SECOND, None)
  {
    hide MonthOf, MonthStart;
  }

  lemma EastAnchorsEarlier(day: int, now: Instant, east: int)
    ensures var k := NextAnchorMonth(day, now, Some(east));
            && NextAnchorMonth(day, now + east * SECOND, None) == k
            && Anchor(k, day, Some(east)) == Anchor(k, day, None) - east * SECOND
  {
    hide MonthIndex, MonthStart, MonthLength;
    EastReadsAhead(now, east);
  }

  lemma EastSignupResetsEarlier(signup: Instant, now: Instant, east: int)
    requires east * SECOND % BUCKET_SIZE == 0
    ensures NextReset(MonthlySignup, signup, now, Some(east))
         == NextReset(MonthlySignup, signup + east * SECOND, now + east * SECOND, None) - east * SECOND
  {
    hide NextReset, Anchor, DayOfMonth, NextAnchorMonth;
    EastReadsAhead(signup, east);
    EastAnchorsEarlier(DayOfMonth(signup, Some(east)), now, east);
    NextResetIsLeastAnchor(signup, now, Some(east), 0);
    NextResetIsLeastAnchor(signup + east * SECOND, now + east * SECOND, None, 0);
  }

  /**
    A billing timezone `east` seconds east of UTC resets exactly as UTC does on instants moved
    on by that much, that much earlier: midnight at UTC+8 is 16:00 UTC the day before.
   */
  lemma EastResetsEarlier(policy: ResetPolicy, signup: Instant, now: Instant, east: int)
    requires policy.MonthlyFirst? || policy.MonthlySignup?
    requires east * SECOND % BUCKET_SIZE == 0
    ensures NextReset(policy, signup, now, Some(east))
         == NextReset(policy, signup + east * SECOND, now + east * SECOND, None) - east * SECOND
  {
    hide NextReset, Anchor, DayOfMonth;
    EastSignupResetsEarlier(signup, now, east);
    if policy.MonthlyFirst? {
      var first := Anchor(0, 1, Some(east));
      MonthsAbut(0);
      AnchorDate(0, 1, Some(east));
      EastReadsAhead(first, east);
      MonthlyFirstIsSignupOnFirst(first, signup, now, Some(east));
      MonthlyFirstIsSignupOnFirst(first + east * SECOND, signup + east * SECOND, now + east * SECOND, None);
      EastSignupResetsEarlier(first, now, east);
    }
  }

  /** Policies without a schedule, known or not, give the zero time. */
  lemma NoScheduleIsZeroTime(policy: ResetPolicy, signup: Instant, now: Instant, loc: Option<int>)
    ensures !(policy.MonthlyFirst? || policy.MonthlySignup?) ==> NextReset(policy, signup, now, loc) == 0
  {
  }

  // ----- where midnights do not fall on bucket boundaries

  /** Snapping moves a reset back to now or earlier when now shares its bucket with the anchor. */
  lemma SnappedBeforeNow(k: int, loc: Option<int>)
    requires !OnBuckets(loc)
    ensures var now := AlignBucket(Anchor(k, 1, loc));
            NextReset(MonthlySignup, Anchor(0, 1, loc), now, loc) == now
  {
    hide Anchor, DayOfMonth, NextReset, AlignBucket, MonthLength, NextAnchorMonth, OnBuckets;
    var signup, anchor := Anchor(0, 1, loc), Anchor(k, 1, loc);
    var now := AlignBucket(anchor);
    MonthsAbut(0);
    AnchorDate(0, 1, loc);
    NotAligned(k, loc);
    AlignBucketIsFloor(anchor, 0);
    NextResetAlignsNextAnchor(signup, now, loc);
    NextAnchorIsLeast(1, now, loc, k);
    NextAnchorIsLeast(1, now, loc, k - 1);
    AnchorsApart(k, loc);
  }

  lemma AnchorsApart(k: int, loc: Option<int>)
    ensures Anchor(k - 1, 1, loc) + 28 * DAY <= Anchor(k, 1, loc)
  {
    MonthsAbut(k - 1);
    MonthsAbut(k);
    hide MonthStart, MonthLength;
  }

  lemma NotAligned(k: int, loc: Option<int>)
    requires !OnBuckets(loc)
    ensures Anchor(k, 1, loc) % BUCKET_SIZE != 0
  {
    MonthsAbut(k);
    hide MonthStart, MonthLength;
    var n := MonthStart(k);
    assert Anchor(k, 1, loc) == n * 288 * BUCKET_SIZE - Offset(loc);
  }

  /** The next reset is always still to come exactly for offsets that are a whole number of buckets. */
  lemma ResetsAreAheadIff(loc: Option<int>)
    ensures (forall signup, now :: NextReset(MonthlySignup, signup, now, loc) > now) <==> OnBuckets(loc)
  {
    if OnBuckets(loc) {
      forall signup, now
        ensures NextReset(MonthlySignup, signup, now, loc) > now
      {
        NextResetIsLeastAnchor(signup, now, loc, 0);
      }
    } else {
      SnappedBeforeNow(1, loc);
    }
  }
}
