/** The budget functions as they run when no other request interleaves: one user, one day, one shared cache. */
module BudgetCache {
  import opened Sums
  import opened BudgetWindow
  import opened BudgetAdmission
  import opened BudgetLimits

  datatype Outcome = Reserved(bucket: int) | LimitExceeded(usedCents: int)

  // What a counter holds before it is clamped for reading.
  function Raw(m: map<Key, Counter>, k: Key, clock: real): int { if Live(m, k, clock) then m[k].value else 0 }

  // How much reading a counter grows by when cents are added to it: all of them unless it was below zero.
  function Gain(raw: int, cents: int): int { Max(0, raw + cents) - Max(0, raw) }

  lemma {:induction false} WindowSumAfterDeposit(cache: map<Key, Counter>, clock: real, low: int, high: int,
                                                 b: int, cents: int, lifetime: real)
    requires 0.0 < lifetime
    ensures WindowSum(Deposit(cache, Bucket(b), clock, cents, lifetime), clock, low, high)
            == WindowSum(cache, clock, low, high)
               + if low <= b <= high then Gain(Raw(cache, Bucket(b), clock), cents) else 0
    decreases high - low + 1
  {
    if low <= high { WindowSumAfterDeposit(cache, clock, low + 1, high, b, cents, lifetime); }
  }

  class AccountingCache {
    const ttl: nat
    const limit: int
    var clock: real
    var entries: map<Key, Counter>

    ghost predicate Valid()
      reads this
    {
      0.0 <= clock
    }

    function Held(k: Key): int
      reads this
    {
      Raw(entries, k, clock)
    }

    function Value(k: Key): int
      reads this
    {
      Read(entries, k, clock)
    }

    constructor (ttl: nat, limit: int, now: real)
      requires 0.0 <= now
      ensures Valid() && entries == map[] && clock == now && this.ttl == ttl && this.limit == limit
    {
      this.ttl, this.limit := ttl, limit;
      clock, entries := now, map[];
    }

    method Add(k: Key, cents: int, lifetime: real) returns (added: bool)
      modifies this`entries
      ensures added == !old(Live(entries, k, clock))
      ensures entries == if added then Deposit(old(entries), k, clock, cents, lifetime) else old(entries)
    {
      added := !Live(entries, k, clock);
      if added { entries := entries[k := Counter(cents, clock + lifetime)]; }
    }

    method Incr(k: Key, cents: int) returns (present: bool)
      modifies this`entries
      ensures present == old(Live(entries, k, clock))
      ensures entries == if present then Deposit(old(entries), k, clock, cents, 0.0) else old(entries)
    {
      present := Live(entries, k, clock);
      if present { entries := entries[k := entries[k].(value := entries[k].value + cents)]; }
    }

    method Decr(k: Key, cents: int)
      modifies this`entries
      ensures entries == Withdraw(old(entries), k, clock, cents, true)
    {
      if Live(entries, k, clock) { entries := entries[k := entries[k].(value := entries[k].value - cents)]; }
    }

    method AddOrIncr(k: Key, cents: int, lifetime: real)
      modifies this`entries
      ensures entries == Deposit(old(entries), k, clock, cents, lifetime)
    {
      var added := Add(k, cents, lifetime);
      if !added {
        var present := Incr(k, cents);
      }
    }

    /** Without interleaving, add-then-check is an atomic test-and-add: the request is admitted exactly when settled
        spend, the window's reservations, and its own cents fit, and a denied request leaves no trace. In a bucket below
        zero, which the removal of an expired reservation can leave, its own cents weigh that much less. */
    method ReserveUserBudget(cents: int) returns (r: Outcome)
      requires Valid() && 0 < cents
      modifies this`entries
      ensures var used := old(Value(DaySpend) + WindowSum(entries, clock, WindowLow(clock, ttl), BucketOf(clock)));
              var own := old(Gain(Held(Bucket(BucketOf(clock))), cents));
              && r == (if used + own <= limit then Reserved(BucketOf(clock)) else LimitExceeded(used + own - cents))
              && (old(Held(Bucket(BucketOf(clock)))) >= 0 ==> own == cents)
      ensures forall k :: Held(k) == old(Held(k)) + if r.Reserved? && k == Bucket(BucketOf(clock)) then cents else 0
      ensures Valid()
    {
      var b := BucketOf(clock);
      AddOrIncr(Bucket(b), cents, BucketLifetime(ttl));
      var low := WindowLow(clock, ttl);
      WindowSumAfterDeposit(old(entries), clock, low, b, b, cents, BucketLifetime(ttl));
      WindowCoversLifetime(clock, clock, ttl);
      var reserved, next := 0, low;
      while next <= b
        invariant low <= next <= b + 1
        invariant reserved + WindowSum(entries, clock, next, b) == WindowSum(entries, clock, low, b)
      {
        reserved := reserved + Value(Bucket(next));
        next := next + 1;
      }
      var settled := Value(DaySpend);
      if settled + reserved > limit {
        Decr(Bucket(b), cents);
        return LimitExceeded(settled + reserved - cents);
      }
      return Reserved(b);
    }

    /** Actual cost goes into the day's spend, the reservation out of its bucket; a bucket already gone is left
        alone. */
    method SettleReservation(bucket: int, cents: int, actual: nat) returns (total: int)
      requires Valid()
      modifies this`entries
      ensures total == Held(DaySpend) == old(Held(DaySpend)) + actual
      ensures forall k :: k != DaySpend ==>
                Held(k) == old(Held(k)) - if k == Bucket(bucket) && Live(old(entries), k, clock) then cents else 0
      ensures Valid()
    {
      AddOrIncr(DaySpend, actual, SETTLED_SECONDS as real);
      total := entries[DaySpend].value;
      Decr(Bucket(bucket), cents);
    }
  }
}
