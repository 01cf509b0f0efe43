/** Five-minute buckets and the reset instants they are compared against (internal/domain/reset.go). */
module Buckets {
  import opened Options
  import opened Waterfall

  const SECOND: int := 1_000_000_000
  const BUCKET_SIZE: int := 300 * SECOND

  /** The bucket boundary at or before `t`; `Truncate` floors on both sides of the zero time. */
  function AlignBucket(t: Instant): Instant {
    t / BUCKET_SIZE * BUCKET_SIZE
  }

  predicate CountsTowardCurrentPeriod(bucketAt: Instant, lastResetAt: Option<Instant>) {
    lastResetAt.None? || bucketAt >= AlignBucket(lastResetAt.value)
  }

  /** `AlignBucket` is the greatest multiple of five minutes not after its argument. */
  lemma AlignBucketIsFloor(t: Instant, boundary: Instant)
    requires boundary % BUCKET_SIZE == 0
    ensures BUCKET_SIZE == 5 * 60 * 1_000_000_000
    ensures AlignBucket(t) % BUCKET_SIZE == 0 && AlignBucket(t) <= t < AlignBucket(t) + BUCKET_SIZE
    ensures boundary <= t <==> boundary <= AlignBucket(t)
  {
  }

  lemma AlignBucketIdempotentMonotone(t: Instant, u: Instant)
    ensures AlignBucket(AlignBucket(t)) == AlignBucket(t)
    ensures t <= u ==> AlignBucket(t) <= AlignBucket(u)
  {
  }

  /** A bucket counts from the one the reset falls in: exactly if some of its five minutes lie after the reset. */
  lemma CountsIffEndsAfterReset(bucketAt: Instant, lastResetAt: Option<Instant>)
    requires bucketAt % BUCKET_SIZE == 0
    ensures CountsTowardCurrentPeriod(bucketAt, lastResetAt)
       <==> lastResetAt.None? || bucketAt + BUCKET_SIZE > lastResetAt.value
  {
    if lastResetAt.Some? {
      AlignBucketIsFloor(lastResetAt.value, bucketAt);
      AlignBucketIsFloor(lastResetAt.value, bucketAt + BUCKET_SIZE);
    }
  }

  /** No bucket straddles a reset: two instants of one bucket are classified alike. */
  lemma BucketIsNotSplit(t: Instant, u: Instant, lastResetAt: Option<Instant>)
    requires AlignBucket(t) == AlignBucket(u)
    ensures CountsTowardCurrentPeriod(t, lastResetAt) == CountsTowardCurrentPeriod(u, lastResetAt)
  {
  }
}
