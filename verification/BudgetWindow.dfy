/** Time buckets of the daily AI budget: which buckets a request scans, and how long a shared counter lives. */
module BudgetWindow {
  import opened Sums

  const BUCKET_SECONDS := 300
  const DAY_SECONDS := 86400
  // Lifetime of the settled counter: 26 hours from the day's first settlement.
  const SETTLED_SECONDS := 93600

  function BucketOf(t: real): int { (t / 300.0).Floor }

  function BucketCount(ttl: int): int { (ttl + BUCKET_SECONDS - 1) / BUCKET_SECONDS }

  function WindowLow(now: real, ttl: int): int { Max(0, BucketOf(now) - BucketCount(ttl)) }

  function BucketLifetime(ttl: int): real { (ttl + BUCKET_SECONDS) as real }

  /** A reservation placed at most `ttl` seconds before another request's check lies in a bucket that request scans. */
  lemma WindowCoversLifetime(placed: real, check: real, ttl: int)
    requires 0.0 <= placed <= check <= placed + ttl as real
    ensures WindowLow(check, ttl) <= BucketOf(placed) <= BucketOf(check)
  {
    var p, c, n := BucketOf(placed), BucketOf(check), BucketCount(ttl);
    assert ttl <= 300 * n;
    assert 300.0 * (c as real) < 300.0 * ((p + 1) as real) + ttl as real;
    assert 300 * c < 300 * (p + 1) + ttl;
  }

  /** A reservation older than the lifetime by two buckets' width lies before every bucket that the request scans. */
  lemma WindowForgets(placed: real, check: real, ttl: int)
    requires 0.0 <= placed && placed + ttl as real + 600.0 <= check && 0 <= ttl
    ensures BucketOf(placed) < WindowLow(check, ttl)
  {
    var p, c, n := BucketOf(placed), BucketOf(check), BucketCount(ttl);
    assert 300 * n < ttl + 300;
    assert 300.0 * (p as real) + ttl as real + 600.0 < 300.0 * ((c + 1) as real);
    assert 300 * p + ttl + 600 < 300 * (c + 1);
  }

  /** A bucket's counter takes its lifetime from whoever created it. Creation falls into the bucket's own interval or
      later, so the counter outlives every reservation placed in that interval by anyone. */
  lemma BucketOutlivesReservation(placed: real, created: real, now: real, ttl: int)
    requires 300.0 * (BucketOf(placed) as real) <= created
    requires now <= placed + ttl as real
    ensures now < created + BucketLifetime(ttl)
  {
  }

  // A counter with this lifetime, created at any time of the bucket or later, is there as long as the reservation.
  ghost predicate Outlives(life: real, placed: real, created: real, now: real, ttl: int) {
    300.0 * (BucketOf(placed) as real) <= created && now <= placed + ttl as real ==> now < created + life
  }

  /** No shorter lifetime would do. */
  lemma LifetimeIsLeast(ttl: nat, life: real)
    ensures (forall placed, created, now :: 0.0 <= placed ==> Outlives(life, placed, created, now, ttl))
            <==> BucketLifetime(ttl) <= life
  {
    if life < BucketLifetime(ttl) {
      var placed := if life > ttl as real then life - ttl as real else 0.0;
      assert BucketOf(placed) == 0 && !Outlives(life, placed, 0.0, placed + ttl as real, ttl);
    } else {
      forall placed, created, now | 0.0 <= placed ensures Outlives(life, placed, created, now, ttl) {}
    }
  }
}
