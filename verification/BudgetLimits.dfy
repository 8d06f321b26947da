/** No cents leak, and exactly how long a reservation lifetime the cap tolerates. */
module BudgetLimits {
  import opened Options
  import opened Sums
  import opened BudgetWindow
  import opened BudgetAdmission
  import opened BudgetSafety

  // ----- No leak -----

  /** In every reachable state each bucket is the cents added and not yet removed; and settled spend is the actual costs
      as long as no reservation outlives the counter. */
  lemma CountersAreExact(cfg: Config, s: State, b: int)
    requires ValidConfig(cfg) && Reachable(cfg, s)
    ensures Stored(s.cache, Bucket(b)) == Sum(s.calls, HeldFn(b))
    ensures cfg.ttl <= 7200 ==> Stored(s.cache, DaySpend) == Sum(s.calls, SpentFn())
  {
    ReachableInv(cfg, s);
  }

  // Neither a decrement nor a settlement was lost to a cache error. Failing before admission is fine: it rolls back.
  predicate Written(step: Step) {
    match step
    case RollBack(_, written) => written
    case Release(_, written) => written
    case ReleaseSettled(_, written) => written
    case LoseSettlement(_) => false
    case _ => true
  }

  ghost predicate HeldWhileBusy(s: State) { forall c :: c in s.calls ==> (c.held <==> Busy(c.phase)) }

  lemma {:induction false} WrittenRunsHoldOnlyBusyCalls(cfg: Config, s: State, steps: seq<Step>, t: State)
    requires HeldWhileBusy(s) && Exec(cfg, s, steps) == Some(t)
    requires forall i :: 0 <= i < |steps| ==> Written(steps[i])
    ensures HeldWhileBusy(t)
    decreases |steps|
  {
    if steps != [] {
      var u := Apply(cfg, s, steps[0]);
      assert Written(steps[0]);
      forall c | c in u.calls ensures c.held <==> Busy(c.phase) {
        var i :| 0 <= i < |u.calls| && u.calls[i] == c;
        assert i < |s.calls| ==> s.calls[i] in s.calls;
      }
      WrittenRunsHoldOnlyBusyCalls(cfg, u, steps[1..], t);
    }
  }

  /** When every call has finished and no cache write was lost, every bucket is back at zero. */
  lemma QuiescentBucketsAreEmpty(cfg: Config, steps: seq<Step>, t: State, b: int)
    requires ValidConfig(cfg) && Exec(cfg, Init(cfg), steps) == Some(t)
    requires forall i :: 0 <= i < |steps| ==> Written(steps[i])
    requires forall c :: c in t.calls ==> !Busy(c.phase)
    ensures Stored(t.cache, Bucket(b)) == 0
  {
    RunKeepsBuckets(cfg, Init(cfg), steps, t);
    WrittenRunsHoldOnlyBusyCalls(cfg, Init(cfg), steps, t);
    SumZero(t.calls, HeldFn(b));
  }

  // ----- A whole scan -----

  function WindowSum(cache: map<Key, Counter>, clock: real, low: int, high: int): int
    decreases high - low + 1
  {
    if high < low then 0 else Read(cache, Bucket(low), clock) + WindowSum(cache, clock, low + 1, high)
  }

  lemma {:induction false} WindowSumSingle(cache: map<Key, Counter>, clock: real, low: int, high: int, k: int)
    requires forall b :: low <= b <= high && b != k ==> Read(cache, Bucket(b), clock) == 0
    ensures WindowSum(cache, clock, low, high) == if low <= k <= high then Read(cache, Bucket(k), clock) else 0
    decreases high - low + 1
  {
    if low <= high { WindowSumSingle(cache, clock, low + 1, high, k); }
  }

  lemma {:induction false} OnlyTheWindowWeighs(cache: map<Key, Counter>, b: int, left: Counter, clock: real,
                                               low: int, high: int)
    requires b < low
    ensures WindowSum(cache[Bucket(b) := left], clock, low, high) == WindowSum(cache, clock, low, high)
    decreases high - low + 1
  {
    if low <= high { OnlyTheWindowWeighs(cache, b, left, clock, low + 1, high); }
  }

  /** Whatever a reservation has left in its bucket, once it is older than the lifetime by two buckets it no longer
      weighs on what others may reserve. */
  lemma OldReservationsAreForgotten(cache: map<Key, Counter>, placed: real, left: Counter, clock: real, ttl: nat)
    requires 0.0 <= placed && placed + ttl as real + 600.0 <= clock
    ensures var low, high := WindowLow(clock, ttl), BucketOf(clock);
            WindowSum(cache[Bucket(BucketOf(placed)) := left], clock, low, high) == WindowSum(cache, clock, low, high)
  {
    WindowForgets(placed, clock, ttl);
    OnlyTheWindowWeighs(cache, BucketOf(placed), left, clock, WindowLow(clock, ttl), BucketOf(clock));
  }

  // ----- Making a reservation -----

  /** A reservation tries to create its bucket, then to add to it, each at most twice. The first of these that finds the
      bucket as it needs it places the cents, in a new counter or in the one that is there; after the last the request
      goes without. */
  lemma TriesAreExact(cfg: Config, s: State, a: nat)
    requires a < |s.attempts|
    ensures var t, key := s.attempts[a], Bucket(BucketOf(s.attempts[a].placed));
            var creates, there := t.tries == 0 || t.tries == 2, key in s.cache && s.clock < s.cache[key].expires;
            var s', others := Apply(cfg, s, Try(a)), s.attempts[..a] + s.attempts[a + 1..];
            && (creates && !there ==>
                  s'.cache == s.cache[key := Counter(t.cents, s.clock + BucketLifetime(cfg.ttl))])
            && (!creates && there ==>
                  s'.cache == s.cache[key := Counter(s.cache[key].value + t.cents, s.cache[key].expires)])
            && (creates != there ==>
                  s'.calls == s.calls + [Call(t.started, t.placed, t.cents, Placed, true)] && s'.attempts == others)
            && (creates == there ==>
                  && s'.cache == s.cache && s'.calls == s.calls
                  && s'.attempts == if t.tries < 3 then s.attempts[a := t.(tries := t.tries + 1)] else others)
            && s'.clock == s.clock
  {
  }

  // ----- One step of a scan -----

  // What a counter shows: its value while it lives, and nothing below zero.
  function Shown(m: map<Key, Counter>, k: Key, clock: real): int {
    if k in m && clock < m[k].expires && 0 < m[k].value then m[k].value else 0
  }

  /** A scan begins at the window of its own clock, adds up what the buckets show, one after the other, and admits the
      call exactly if that and settled spend fit the limit. No step touches anything but the call. */
  lemma ScansAreExact(cfg: Config, s: State, q: nat, placed: real)
    requires q < |s.calls| && 0 <= cfg.ttl
    ensures Enabled(cfg, s, ReadClock(q)) ==>
              var c, p := s.calls[q], Apply(cfg, s, ReadClock(q)).calls[q].phase;
              && Apply(cfg, s, ReadClock(q)) == s.(calls := s.calls[q := c.(phase := p)])
              && p.Scanning? && p.total == 0 && p.last == BucketOf(if c.placed <= s.clock then s.clock else c.placed)
              && (0.0 <= placed && placed + cfg.ttl as real + 600.0 <= s.clock ==> BucketOf(placed) < p.next)
    ensures Enabled(cfg, s, ReadBucket(q)) ==>
              var c, p := s.calls[q], s.calls[q].phase;
              Apply(cfg, s, ReadBucket(q))
              == s.(calls := s.calls[q := c.(phase :=
                     Scanning(p.next + 1, p.last, p.total + Shown(s.cache, Bucket(p.next), s.clock)))])
    ensures Enabled(cfg, s, ReadSettled(q)) ==>
              var c := s.calls[q];
              var fits := c.phase.total + Shown(s.cache, DaySpend, s.clock) <= cfg.limit;
              Apply(cfg, s, ReadSettled(q)) == s.(calls := s.calls[q := c.(phase := if fits then Admitted else Denied)])
  {
    if 0.0 <= placed && placed + cfg.ttl as real + 600.0 <= s.clock {
      WindowForgets(placed, s.clock, cfg.ttl);
      if s.calls[q].placed > s.clock { WindowForgets(placed, s.calls[q].placed, cfg.ttl); }
    }
  }

  lemma {:induction false} ScanToTheEnd(cfg: Config, s: State, q: nat) returns (t: State)
    requires Reachable(cfg, s) && q < |s.calls| && s.calls[q].phase.Scanning?
    requires s.calls[q].phase.next <= s.calls[q].phase.last + 1
    ensures Reachable(cfg, t)
    ensures var p := s.calls[q].phase;
            t == SetCall(s, q, s.calls[q].(phase :=
                   Scanning(p.last + 1, p.last, p.total + WindowSum(s.cache, s.clock, p.next, p.last))))
    decreases s.calls[q].phase.last - s.calls[q].phase.next + 1
  {
    var p := s.calls[q].phase;
    if p.next <= p.last {
      ReachFurther(cfg, s, ReadBucket(q));
      t := ScanToTheEnd(cfg, Apply(cfg, s, ReadBucket(q)), q);
    } else {
      t := s;
      assert t.calls == s.calls[q := s.calls[q]];
    }
  }

  /** A lone request from a state whose cache is readable only at its own bucket: added, scanned, ready to decide. */
  lemma AddAndScan(cfg: Config, s: State, cents: int) returns (t: State)
    requires ValidConfig(cfg) && Reachable(cfg, s) && s.attempts == [] && 0 < cents
    requires cfg.dayStart <= s.clock < cfg.dayStart + DAY_SECONDS as real
    requires forall k :: k in s.cache && k.Bucket? ==> Read(s.cache, k, s.clock) == 0
    requires !Live(s.cache, Bucket(BucketOf(s.clock)), s.clock)
    ensures Reachable(cfg, t) && t.clock == s.clock && t.attempts == []
    ensures t.cache == Deposit(s.cache, Bucket(BucketOf(s.clock)), s.clock, cents, BucketLifetime(cfg.ttl))
    ensures var scanned := Scanning(BucketOf(s.clock) + 1, BucketOf(s.clock), cents);
            t.calls == s.calls + [Call(s.clock, s.clock, cents, scanned, true)]
  {
    var q, b := |s.calls|, BucketOf(s.clock);
    var s2 := AddAtOnce(cfg, s, cents);
    ReachFurther(cfg, s2, ReadClock(q));
    var s3 := Apply(cfg, s2, ReadClock(q));
    WindowCoversLifetime(s.clock, s.clock, cfg.ttl);
    t := ScanToTheEnd(cfg, s3, q);
    WindowSumSingle(s3.cache, s3.clock, WindowLow(s.clock, cfg.ttl), b, b);
  }

  // A reservation whose first cache call succeeds.
  lemma AddAtOnce(cfg: Config, s: State, cents: int) returns (t: State)
    requires ValidConfig(cfg) && Reachable(cfg, s) && s.attempts == [] && 0 < cents
    requires cfg.dayStart <= s.clock < cfg.dayStart + DAY_SECONDS as real
    requires !Live(s.cache, Bucket(BucketOf(s.clock)), s.clock)
    ensures Reachable(cfg, t) && t.clock == s.clock && t.attempts == []
    ensures t.cache == Deposit(s.cache, Bucket(BucketOf(s.clock)), s.clock, cents, BucketLifetime(cfg.ttl))
    ensures t.calls == s.calls + [Call(s.clock, s.clock, cents, Placed, true)]
  {
    ReachFurther(cfg, s, Begin(s.clock, s.clock, cents));
    var s1 := Apply(cfg, s, Begin(s.clock, s.clock, cents));
    ReachFurther(cfg, s1, Try(0));
    t := Apply(cfg, s1, Try(0));
  }

  // ----- The settled counter lives 26 hours: two hours past the day -----

  // The only call is admitted, settled at its reservation, and released.
  lemma SettleTheOnlyCall(cfg: Config, s1: State, b: int) returns (s: State)
    requires Reachable(cfg, s1) && s1.clock == cfg.dayStart && s1.attempts == []
    requires s1.calls == [Call(cfg.dayStart, cfg.dayStart, cfg.limit, Scanning(b + 1, b, cfg.limit), true)]
    requires 1 <= cfg.limit && 0 <= cfg.ttl && b == BucketOf(cfg.dayStart)
    requires s1.cache == map[Bucket(b) := Counter(cfg.limit, cfg.dayStart + BucketLifetime(cfg.ttl))]
    ensures Reachable(cfg, s) && s.clock == cfg.dayStart && s.attempts == []
    ensures s.calls == [Call(cfg.dayStart, cfg.dayStart, cfg.limit, Settled(cfg.limit), false)]
    ensures s.cache == map[Bucket(b) := Counter(0, cfg.dayStart + BucketLifetime(cfg.ttl)),
                           DaySpend := Counter(cfg.limit, cfg.dayStart + SETTLED_SECONDS as real)]
  {
    ReachFurther(cfg, s1, ReadSettled(0));
    var admitted := Apply(cfg, s1, ReadSettled(0));
    assert admitted == s1.(calls := [s1.calls[0].(phase := Admitted)]);
    var settled := SettleAtReservation(cfg, admitted);
    assert settled.calls == [s1.calls[0].(phase := Settling(cfg.limit))];
    assert Live(settled.cache, Bucket(b), settled.clock) && settled.cache[Bucket(b)] == s1.cache[Bucket(b)];
    s := ReleaseOnlyCall(cfg, settled);
  }

  lemma SettleAtReservation(cfg: Config, s: State) returns (t: State)
    requires Reachable(cfg, s) && |s.calls| == 1 && s.calls[0].phase.Admitted? && 0 <= cfg.limit && DaySpend !in s.cache
    ensures Reachable(cfg, t)
    ensures t == s.(calls := [s.calls[0].(phase := Settling(cfg.limit))],
                    cache := s.cache[DaySpend := Counter(cfg.limit, s.clock + SETTLED_SECONDS as real)])
  {
    ReachFurther(cfg, s, Settle(0, cfg.limit));
    t := Apply(cfg, s, Settle(0, cfg.limit));
  }

  lemma ReleaseOnlyCall(cfg: Config, s: State) returns (t: State)
    requires Reachable(cfg, s) && |s.calls| == 1 && s.calls[0].phase.Settling?
    ensures Reachable(cfg, t)
    ensures var c := s.calls[0];
            t == s.(calls := [c.(phase := Settled(c.phase.actual), held := false)],
                    cache := Withdraw(s.cache, Bucket(BucketOf(c.placed)), s.clock, c.cents, true))
  {
    ReachFurther(cfg, s, ReleaseSettled(0, true));
    t := Apply(cfg, s, ReleaseSettled(0, true));
  }

  /** The whole limit is reserved, settled, and released at the start of the day. */
  lemma SpendTheLimitEarly(cfg: Config) returns (s: State)
    requires ValidConfig(cfg) && 1 <= cfg.limit
    ensures Reachable(cfg, s) && s.clock == cfg.dayStart && s.attempts == []
    ensures s.calls == [Call(cfg.dayStart, cfg.dayStart, cfg.limit, Settled(cfg.limit), false)]
    ensures s.cache == map[Bucket(BucketOf(cfg.dayStart)) := Counter(0, cfg.dayStart + BucketLifetime(cfg.ttl)),
                           DaySpend := Counter(cfg.limit, cfg.dayStart + SETTLED_SECONDS as real)]
  {
    var s0 := Init(cfg);
    assert Exec(cfg, s0, []) == Some(s0);
    var s1 := AddAndScan(cfg, s0, cfg.limit);
    s := SettleTheOnlyCall(cfg, s1, BucketOf(cfg.dayStart));
  }

  /** Beyond two hours of reservation lifetime the cap can be broken: a request of the day's last second that decides
      more than two hours later no longer finds the day's settled spend. */
  lemma CapFailsBeyondTwoHours(cfg: Config) returns (bad: State)
    requires ValidConfig(cfg) && 7200 < cfg.ttl && 1 <= cfg.limit
    ensures Reachable(cfg, bad) && !CapHolds(cfg, bad)
  {
    var s4 := SpendTheLimitEarly(cfg);
    ReachFurther(cfg, s4, Tick(86399.0));
    var s5 := Apply(cfg, s4, Tick(86399.0));
    var s6 := AddAndScan(cfg, s5, 1);
    bad := AdmitTooLate(cfg, s6);
    OneSettledOneAdmitted(cfg, bad);
  }

  // The second call waits for two hours before it reads the settled spend, which has expired.
  lemma AdmitTooLate(cfg: Config, s6: State) returns (bad: State)
    requires 7200 < cfg.ttl && 1 <= cfg.limit && Reachable(cfg, s6)
             && s6.clock == cfg.dayStart + 86399.0 && s6.attempts == []
    requires |s6.calls| == 2 && s6.calls[0] == Call(cfg.dayStart, cfg.dayStart, cfg.limit, Settled(cfg.limit), false)
    requires s6.calls[1].started == s6.clock && s6.calls[1].cents == 1
    requires s6.calls[1].phase.Scanning? && s6.calls[1].phase.last < s6.calls[1].phase.next
             && s6.calls[1].phase.total == 1
    requires DaySpend in s6.cache ==> s6.cache[DaySpend].expires == cfg.dayStart + SETTLED_SECONDS as real
    ensures Reachable(cfg, bad) && bad.calls == [s6.calls[0], s6.calls[1].(phase := Admitted)]
  {
    ReachFurther(cfg, s6, Tick(7201.0));
    var s7 := Apply(cfg, s6, Tick(7201.0));
    ReachFurther(cfg, s7, ReadSettled(1));
    bad := Apply(cfg, s7, ReadSettled(1));
  }

  lemma OneSettledOneAdmitted(cfg: Config, s: State)
    requires |s.calls| == 2 && s.calls[0].phase.Settled? && s.calls[0].phase.actual == s.calls[0].cents
             && s.calls[1].phase == Admitted
    requires 0 < cfg.limit == s.calls[0].cents && 0 < s.calls[1].cents
    ensures !CapHolds(cfg, s)
  {
    var c0, c1 := s.calls[0], s.calls[1];
    assert s.calls == [c0] + [c1];
    SumAppend([c0], c1, ExposureFn());
    SumAppend([c0], c1, OverrunFn());
    SumAppend([], c0, ExposureFn());
    SumAppend([], c0, OverrunFn());
    assert [] + [c0] == [c0];
  }

  /** Exactly when the cap is safe: the reservation lifetime fits into what the settled counter outlives the day by. */
  lemma CapSafeExactlyUpToTwoHours(cfg: Config)
    requires ValidConfig(cfg) && 1 <= cfg.limit
    ensures (forall s :: Reachable(cfg, s) ==> CapHolds(cfg, s)) <==> cfg.ttl <= 7200
  {
    if cfg.ttl <= 7200 {
      forall s | Reachable(cfg, s) ensures CapHolds(cfg, s) { CapSafety(cfg, s); }
    } else {
      var bad := CapFailsBeyondTwoHours(cfg);
    }
  }
}
