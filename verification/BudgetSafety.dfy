/** What every run of the admission protocol keeps: the cache mirrors the calls, no cents leak, and the cap holds. */
module BudgetSafety {
  import opened Options
  import opened Sums
  import opened BudgetWindow
  import opened BudgetAdmission

  // ----- What a call counts for -----

  predicate Counted(p: Phase) { p.Settling? || p.Settled? }

  predicate Decided(p: Phase) { p.Admitted? || Counted(p) }

  predicate Undecided(p: Phase) { p.Placed? || p.Scanning? || p.Admitted? }

  function HeldFn(b: int): Call -> int { (c: Call) => if c.held && BucketOf(c.placed) == b then c.cents else 0 }

  function SpentFn(): Call -> int { (c: Call) => if Counted(c.phase) then c.phase.actual else 0 }

  // Reserved cents of an admitted outstanding call, actual cents of a settled one.
  function ExposureFn(): Call -> int {
    (c: Call) => if c.phase.Admitted? then c.cents else if Counted(c.phase) then c.phase.actual else 0
  }

  // By how much actual cost exceeded the reservation.
  function OverrunFn(): Call -> int {
    (c: Call) => if Counted(c.phase) then Max(0, c.phase.actual - c.cents) else 0
  }

  // What a scan that still has buckets from..to ahead must already have seen of a call: its reserved cents, or the part
  // of its actual cost that its reservation covered. Cents in buckets still ahead are not owed yet.
  function OwedFn(from: int, to: int): Call -> int {
    (c: Call) =>
      if Counted(c.phase) then Min(c.cents, c.phase.actual)
      else if Undecided(c.phase) && !(from <= BucketOf(c.placed) <= to) then c.cents
      else 0
  }

  // Nothing left to scan.
  function CoveredFn(): Call -> int { OwedFn(1, 0) }

  /** The guarantee: admitted and settled cost stays within the limit, apart from what providers billed beyond the
      reservation. A negative limit admits nobody. */
  ghost predicate CapHolds(cfg: Config, s: State) {
    Sum(s.calls, ExposureFn()) <= Max(0, cfg.limit) + Sum(s.calls, OverrunFn())
  }

  // ----- Invariants -----

  ghost predicate TimelyCall(cfg: Config, s: State, c: Call) {
    && cfg.dayStart <= c.started < cfg.dayStart + DAY_SECONDS as real
    && c.started <= c.placed <= s.clock
    && 0 < c.cents
    && (Busy(c.phase) ==> InTime(cfg, c.started, s.clock) && c.held)
  }

  ghost predicate TimelyAttempt(cfg: Config, s: State, a: Attempt) {
    && cfg.dayStart <= a.started < cfg.dayStart + DAY_SECONDS as real
    && a.started <= a.placed <= s.clock
    && 0 < a.cents
    && InTime(cfg, a.started, s.clock)
  }

  ghost predicate Timely(cfg: Config, s: State) {
    && (forall c :: c in s.calls ==> TimelyCall(cfg, s, c))
    && (forall a :: a in s.attempts ==> TimelyAttempt(cfg, s, a))
  }

  function Stored(m: map<Key, Counter>, k: Key): int { if k in m then m[k].value else 0 }

  /** Every bucket counter is exactly the cents added and not yet removed, and outlives the bucket's reservations. */
  ghost predicate Mirrors(cfg: Config, s: State) {
    && (forall b :: Stored(s.cache, Bucket(b)) == Sum(s.calls, HeldFn(b)))
    && (forall b :: Bucket(b) in s.cache ==>
          300.0 * (b as real) + BucketLifetime(cfg.ttl) <= s.cache[Bucket(b)].expires)
  }

  ghost predicate BucketInv(cfg: Config, s: State) {
    cfg.dayStart <= s.clock && Timely(cfg, s) && Mirrors(cfg, s)
  }

  /** Settled spend is exactly the sum of actual costs, and its counter outlives the day's last check. */
  ghost predicate DayInv(cfg: Config, s: State) {
    && Stored(s.cache, DaySpend) == Sum(s.calls, SpentFn())
    && (DaySpend in s.cache ==> cfg.dayStart + SETTLED_SECONDS as real <= s.cache[DaySpend].expires)
  }

  /** The last adder sees everyone: whatever was added up to and including call `q` is in the scan's running total, in
      settled spend, or in a bucket the scan has yet to read. */
  ghost predicate ScanInv(s: State, q: int)
    requires 0 <= q < |s.calls|
  {
    var p := s.calls[q].phase;
    p.Scanning? ==> Sum(s.calls[..q + 1], OwedFn(p.next, p.last)) <= p.total + Sum(s.calls, SpentFn())
  }

  ghost predicate AdmitInv(cfg: Config, s: State, q: int)
    requires 0 <= q < |s.calls|
  {
    Decided(s.calls[q].phase) ==> Sum(s.calls[..q + 1], CoveredFn()) <= cfg.limit
  }

  ghost predicate CapInv(cfg: Config, s: State) {
    && DayInv(cfg, s)
    && (forall q :: 0 <= q < |s.calls| ==> ScanInv(s, q))
    && (forall q :: 0 <= q < |s.calls| ==> AdmitInv(cfg, s, q))
  }

  // ----- Keys stay alive as long as somebody relies on them -----

  lemma HeldBucketIsReadable(cfg: Config, s: State, c: Call)
    requires ValidConfig(cfg) && BucketInv(cfg, s)
    requires c in s.calls && Busy(c.phase)
    ensures Live(s.cache, Bucket(BucketOf(c.placed)), s.clock)
  {
    var b := BucketOf(c.placed);
    HeldCountsAtLeast(cfg, s, c, b);
    var expires := s.cache[Bucket(b)].expires;
    BucketOutlivesReservation(c.placed, expires - BucketLifetime(cfg.ttl), s.clock, cfg.ttl);
  }

  lemma {:induction false} HeldCountsAtLeast(cfg: Config, s: State, c: Call, b: int)
    requires Timely(cfg, s) && c in s.calls && c.held && BucketOf(c.placed) == b
    ensures 0 < Sum(s.calls, HeldFn(b))
  {
    var i :| 0 <= i < |s.calls| && s.calls[i] == c;
    var f := HeldFn(b);
    assert s.calls[..i + 1][..i] == s.calls[..i];
    SumPrefix(s.calls, i + 1, f);
    SumPrefix(s.calls, i, f);
  }

  /** With at most two hours of reservation lifetime, nobody who can still check the day finds its counter expired. */
  lemma DayCounterIsReadable(cfg: Config, s: State, c: Call)
    requires cfg.ttl <= 7200
    requires BucketInv(cfg, s) && DayInv(cfg, s)
    requires c in s.calls && Busy(c.phase) && DaySpend in s.cache
    ensures Live(s.cache, DaySpend, s.clock)
  {
  }

  // ----- Every step keeps the buckets exact -----

  lemma SetCallKeepsTimely(cfg: Config, s: State, q: nat, c: Call)
    requires q < |s.calls| && Timely(cfg, s) && TimelyCall(cfg, s, c)
    ensures Timely(cfg, SetCall(s, q, c))
  {
    forall x | x in s.calls[q := c] ensures TimelyCall(cfg, SetCall(s, q, c), x) {
      assert x == c || x in s.calls;
    }
  }

  lemma PhaseChangeKeepsBuckets(cfg: Config, s: State, q: nat, c: Call)
    requires q < |s.calls| && BucketInv(cfg, s)
    requires c == s.calls[q].(phase := c.phase) && (Busy(c.phase) ==> Busy(s.calls[q].phase))
    ensures BucketInv(cfg, SetCall(s, q, c))
  {
    assert TimelyCall(cfg, s, s.calls[q]);
    SetCallKeepsTimely(cfg, s, q, c);
    forall b ensures Sum(s.calls[q := c], HeldFn(b)) == Sum(s.calls, HeldFn(b)) {
      SumUpdate(s.calls, q, c, HeldFn(b));
    }
  }

  lemma TakeOutKeepsBuckets(cfg: Config, s: State, q: nat, p: Phase, written: bool)
    requires ValidConfig(cfg) && BucketInv(cfg, s)
    requires q < |s.calls| && Busy(s.calls[q].phase) && !Busy(p)
    ensures BucketInv(cfg, TakeOut(s, q, p, written))
    ensures Stored(TakeOut(s, q, p, written).cache, DaySpend) == Stored(s.cache, DaySpend)
    ensures DaySpend in TakeOut(s, q, p, written).cache <==> DaySpend in s.cache
  {
    var c := s.calls[q];
    var c' := c.(phase := p, held := c.held && !written);
    assert TimelyCall(cfg, s, c);
    SetCallKeepsTimely(cfg, s, q, c');
    HeldBucketIsReadable(cfg, s, c);
    forall b ensures Sum(s.calls[q := c'], HeldFn(b))
                     == Sum(s.calls, HeldFn(b)) - (if written && b == BucketOf(c.placed) then c.cents else 0) {
      SumUpdate(s.calls, q, c', HeldFn(b));
    }
  }

  lemma TryKeepsTimely(cfg: Config, s: State, a: nat)
    requires ValidConfig(cfg) && cfg.dayStart <= s.clock && Timely(cfg, s) && a < |s.attempts|
    ensures Timely(cfg, TryAdd(cfg, s, a))
  {
    var t, s' := s.attempts[a], TryAdd(cfg, s, a);
    assert TimelyAttempt(cfg, s, t);
    forall x | x in s'.attempts ensures TimelyAttempt(cfg, s', x) {
      assert x == t.(tries := x.tries) || x in s.attempts;
    }
    forall c | c in s'.calls ensures TimelyCall(cfg, s', c) {
      assert c == Call(t.started, t.placed, t.cents, Placed, true) || c in s.calls;
    }
  }

  lemma TryKeepsMirrors(cfg: Config, s: State, a: nat)
    requires ValidConfig(cfg) && BucketInv(cfg, s) && a < |s.attempts|
    ensures Mirrors(cfg, TryAdd(cfg, s, a))
  {
    var t, s' := s.attempts[a], TryAdd(cfg, s, a);
    assert t in s.attempts;
    if |s'.calls| != |s.calls| {
      var c := Call(t.started, t.placed, t.cents, Placed, true);
      assert s'.calls == s.calls + [c];
      forall b ensures Stored(s'.cache, Bucket(b)) == Sum(s'.calls, HeldFn(b)) {
        SumAppend(s.calls, c, HeldFn(b));
        assert Stored(s.cache, Bucket(b)) == Sum(s.calls, HeldFn(b));
      }
    }
  }

  lemma TryKeepsBuckets(cfg: Config, s: State, a: nat)
    requires ValidConfig(cfg) && BucketInv(cfg, s) && a < |s.attempts|
    ensures BucketInv(cfg, TryAdd(cfg, s, a))
  {
    TryKeepsTimely(cfg, s, a);
    TryKeepsMirrors(cfg, s, a);
  }

  lemma StepKeepsBuckets(cfg: Config, s: State, step: Step)
    requires ValidConfig(cfg) && BucketInv(cfg, s) && Enabled(cfg, s, step)
    ensures BucketInv(cfg, Apply(cfg, s, step))
  {
    match step
    case Tick(d) =>
      forall c | c in s.calls ensures TimelyCall(cfg, Apply(cfg, s, step), c) {
        var i :| 0 <= i < |s.calls| && s.calls[i] == c;
        assert TimelyCall(cfg, s, s.calls[i]);
      }
      forall x | x in s.attempts ensures TimelyAttempt(cfg, Apply(cfg, s, step), x) {
        var i :| 0 <= i < |s.attempts| && s.attempts[i] == x;
        assert TimelyAttempt(cfg, s, s.attempts[i]);
      }
    case Begin(_, _, _) =>
    case Try(a) => TryKeepsBuckets(cfg, s, a);
    case RollBack(q, written) => TakeOutKeepsBuckets(cfg, s, q, Closed, written);
    case Release(q, written) => TakeOutKeepsBuckets(cfg, s, q, Closed, written);
    case ReleaseSettled(q, written) => TakeOutKeepsBuckets(cfg, s, q, Settled(s.calls[q].phase.actual), written);
    case ReadClock(q) => PhaseChangeKeepsBuckets(cfg, s, q, Apply(cfg, s, step).calls[q]);
    case ReadBucket(q) => PhaseChangeKeepsBuckets(cfg, s, q, Apply(cfg, s, step).calls[q]);
    case ReadSettled(q) => PhaseChangeKeepsBuckets(cfg, s, q, Apply(cfg, s, step).calls[q]);
    case Fail(q) => PhaseChangeKeepsBuckets(cfg, s, q, Apply(cfg, s, step).calls[q]);
    case LoseSettlement(q) => PhaseChangeKeepsBuckets(cfg, s, q, Apply(cfg, s, step).calls[q]);
    case Settle(q, actual) => PhaseChangeKeepsBuckets(cfg, s, q, Apply(cfg, s, step).calls[q]);
  }

  // ----- Every step keeps the cap argument -----

  // A call may owe more to a scan only as far as settled spend grows with it.
  ghost predicate OwesNoMore(before: Call, after: Call) {
    forall from, to :: OwedFn(from, to)(after) - OwedFn(from, to)(before) <= SpentFn()(after) - SpentFn()(before)
  }

  lemma SetCallKeepsScans(s: State, q: nat, c: Call)
    requires q < |s.calls| && OwesNoMore(s.calls[q], c)
    requires SpentFn()(s.calls[q]) <= SpentFn()(c)
    requires forall i :: 0 <= i < |s.calls| ==> ScanInv(s, i)
    ensures forall i :: 0 <= i < |s.calls| && i != q ==> ScanInv(SetCall(s, q, c), i)
    ensures Sum(s.calls[q := c], SpentFn()) == Sum(s.calls, SpentFn()) + SpentFn()(c) - SpentFn()(s.calls[q])
  {
    SumUpdate(s.calls, q, c, SpentFn());
    forall i | 0 <= i < |s.calls| && i != q ensures ScanInv(SetCall(s, q, c), i) {
      var p := s.calls[i].phase;
      if p.Scanning? {
        assert ScanInv(s, i);
        PrefixUpdate(s.calls, q, c, i, OwedFn(p.next, p.last));
      }
    }
  }

  lemma SetCallKeepsAdmitted(cfg: Config, s: State, q: nat, c: Call)
    requires q < |s.calls|
    requires CoveredFn()(c) <= CoveredFn()(s.calls[q])
    requires forall i :: 0 <= i < |s.calls| ==> AdmitInv(cfg, s, i)
    ensures forall i :: 0 <= i < |s.calls| && i != q ==> AdmitInv(cfg, SetCall(s, q, c), i)
    ensures Decided(s.calls[q].phase) ==> AdmitInv(cfg, SetCall(s, q, c), q)
  {
    forall i | 0 <= i < |s.calls| && (i != q || Decided(s.calls[q].phase)) ensures AdmitInv(cfg, SetCall(s, q, c), i) {
      assert AdmitInv(cfg, s, i);
      PrefixUpdate(s.calls, q, c, i, CoveredFn());
    }
  }

  /** Choosing the window: everything still held lies inside it, everything counted is in settled spend. */
  lemma WindowSeesEveryone(cfg: Config, s: State, q: nat)
    requires ValidConfig(cfg) && BucketInv(cfg, s)
    requires q < |s.calls| && s.calls[q].phase.Placed?
    ensures ScanInv(Apply(cfg, s, ReadClock(q)), q)
  {
    var s' := Apply(cfg, s, ReadClock(q));
    var p := s'.calls[q].phase;
    assert TimelyCall(cfg, s, s.calls[q]);
    StepKeepsBuckets(cfg, s, ReadClock(q));
    forall c | c in s'.calls[..q + 1] ensures OwedFn(p.next, p.last)(c) <= SpentFn()(c) {
      assert c in s'.calls;
      if Busy(c.phase) { WindowCoversLifetime(c.placed, s.clock, cfg.ttl); }
    }
    SumLe(s'.calls[..q + 1], OwedFn(p.next, p.last), SpentFn());
    SumPrefix(s'.calls, q + 1, SpentFn());
  }

  /** Reading one bucket: the total grows by at least the cents that are held there. */
  lemma BucketReadCoversHeld(cfg: Config, s: State, q: nat, next: int, last: int)
    requires ValidConfig(cfg) && BucketInv(cfg, s) && q < |s.calls|
    ensures Sum(s.calls[..q + 1], OwedFn(next + 1, last))
            <= Sum(s.calls[..q + 1], OwedFn(next, last)) + Read(s.cache, Bucket(next), s.clock)
  {
    var calls := s.calls[..q + 1];
    if Live(s.cache, Bucket(next), s.clock) {
      forall c | c in calls ensures OwedFn(next + 1, last)(c) <= OwedFn(next, last)(c) + HeldFn(next)(c) {
        assert c in s.calls;
      }
      SumLeAdd(calls, OwedFn(next + 1, last), OwedFn(next, last), HeldFn(next));
      SumPrefix(s.calls, q + 1, HeldFn(next));
      assert Stored(s.cache, Bucket(next)) == Sum(s.calls, HeldFn(next));
    } else {
      forall c | c in calls ensures OwedFn(next + 1, last)(c) <= OwedFn(next, last)(c) {
        assert c in s.calls;
        if Busy(c.phase) { HeldBucketIsReadable(cfg, s, c); }
      }
      SumLe(calls, OwedFn(next + 1, last), OwedFn(next, last));
    }
  }

  lemma SettledReadIsExact(cfg: Config, s: State, q: nat)
    requires cfg.ttl <= 7200
    requires BucketInv(cfg, s) && DayInv(cfg, s)
    requires q < |s.calls| && Busy(s.calls[q].phase)
    ensures Read(s.cache, DaySpend, s.clock) == Sum(s.calls, SpentFn())
    ensures DaySpend in s.cache ==> Live(s.cache, DaySpend, s.clock)
  {
    SumPrefix(s.calls, |s.calls|, SpentFn());
    if DaySpend in s.cache { DayCounterIsReadable(cfg, s, s.calls[q]); }
  }

  /** The decision: whatever was added up to and including an admitted call fits under the limit at that moment. */
  lemma DecisionKeepsCap(cfg: Config, s: State, q: nat)
    requires ValidConfig(cfg) && cfg.ttl <= 7200
    requires BucketInv(cfg, s) && CapInv(cfg, s) && Enabled(cfg, s, ReadSettled(q))
    ensures CapInv(cfg, Apply(cfg, s, ReadSettled(q)))
  {
    var s' := Apply(cfg, s, ReadSettled(q));
    var c, c' := s.calls[q], s'.calls[q];
    assert TimelyCall(cfg, s, c);
    SetCallKeepsScans(s, q, c');
    SetCallKeepsAdmitted(cfg, s, q, c');
    SettledReadIsExact(cfg, s, q);
    assert ScanInv(s, q);
    SumLe(s.calls[..q + 1], CoveredFn(), OwedFn(c.phase.next, c.phase.last));
    PrefixUpdate(s.calls, q, c', q, CoveredFn());
  }

  lemma SameCallsKeepCap(cfg: Config, s: State, s': State)
    requires CapInv(cfg, s) && s'.calls == s.calls && s'.cache == s.cache
    ensures CapInv(cfg, s')
  {
    forall i | 0 <= i < |s.calls| ensures ScanInv(s', i) && AdmitInv(cfg, s', i) {
      assert ScanInv(s, i) && AdmitInv(cfg, s, i);
    }
  }

  /** Leaving the protocol: the call owes nothing more, or still the covered part of its settled cost. */
  lemma LeavingKeepsCap(cfg: Config, s: State, q: nat, s': State)
    requires BucketInv(cfg, s) && CapInv(cfg, s)
    requires q < |s.calls| == |s'.calls| && s'.calls == s.calls[q := s'.calls[q]]
    requires s'.calls[q].placed == s.calls[q].placed && s'.calls[q].cents == s.calls[q].cents
    requires !Undecided(s'.calls[q].phase)
    requires if s.calls[q].phase.Settling? then s'.calls[q].phase == Settled(s.calls[q].phase.actual)
             else !Counted(s.calls[q].phase) && !Counted(s'.calls[q].phase)
    requires Stored(s'.cache, DaySpend) == Stored(s.cache, DaySpend)
    requires DaySpend in s'.cache ==> DaySpend in s.cache && s'.cache[DaySpend] == s.cache[DaySpend]
    ensures CapInv(cfg, s')
  {
    assert TimelyCall(cfg, s, s.calls[q]);
    SetCallKeepsScans(s, q, s'.calls[q]);
    SetCallKeepsAdmitted(cfg, s, q, s'.calls[q]);
    var u := SetCall(s, q, s'.calls[q]);
    forall i | 0 <= i < |s.calls| ensures ScanInv(s', i) && AdmitInv(cfg, s', i) {
      assert ScanInv(u, i) && AdmitInv(cfg, u, i);
    }
  }

  lemma NewCallKeepsCap(cfg: Config, s: State, s': State, c: Call)
    requires CapInv(cfg, s) && s'.calls == s.calls + [c] && c.phase.Placed?
    requires (DaySpend in s'.cache <==> DaySpend in s.cache)
             && (DaySpend in s.cache ==> s'.cache[DaySpend] == s.cache[DaySpend])
    ensures CapInv(cfg, s')
  {
    SumAppend(s.calls, c, SpentFn());
    forall i | 0 <= i < |s'.calls| ensures ScanInv(s', i) && AdmitInv(cfg, s', i) {
      if i < |s.calls| {
        assert s'.calls[..i + 1] == s.calls[..i + 1];
        assert ScanInv(s, i) && AdmitInv(cfg, s, i);
      }
    }
  }

  lemma TryKeepsCap(cfg: Config, s: State, a: nat)
    requires CapInv(cfg, s) && a < |s.attempts|
    ensures CapInv(cfg, TryAdd(cfg, s, a))
  {
    var t, s' := s.attempts[a], TryAdd(cfg, s, a);
    if |s'.calls| != |s.calls| {
      NewCallKeepsCap(cfg, s, s', Call(t.started, t.placed, t.cents, Placed, true));
    } else {
      SameCallsKeepCap(cfg, s, s');
    }
  }

  // A scanning call moves on: only its own scan argument is left to show.
  lemma ScanStepKeepsCap(cfg: Config, s: State, q: nat, p: Phase)
    requires BucketInv(cfg, s) && CapInv(cfg, s)
    requires q < |s.calls| && Undecided(s.calls[q].phase) && !s.calls[q].phase.Admitted? && p.Scanning?
    requires ScanInv(SetCall(s, q, s.calls[q].(phase := p)), q)
    ensures CapInv(cfg, SetCall(s, q, s.calls[q].(phase := p)))
  {
    var c := s.calls[q].(phase := p);
    assert TimelyCall(cfg, s, s.calls[q]);
    SetCallKeepsScans(s, q, c);
    SetCallKeepsAdmitted(cfg, s, q, c);
  }

  lemma ReadBucketKeepsCap(cfg: Config, s: State, q: nat)
    requires ValidConfig(cfg) && BucketInv(cfg, s) && CapInv(cfg, s) && Enabled(cfg, s, ReadBucket(q))
    ensures CapInv(cfg, Apply(cfg, s, ReadBucket(q)))
  {
    var p, c := s.calls[q].phase, Apply(cfg, s, ReadBucket(q)).calls[q];
    assert ScanInv(s, q);
    BucketReadCoversHeld(cfg, s, q, p.next, p.last);
    PrefixUpdate(s.calls, q, c, q, OwedFn(p.next + 1, p.last));
    SumUpdate(s.calls, q, c, SpentFn());
    ScanStepKeepsCap(cfg, s, q, c.phase);
  }

  lemma SettleKeepsCap(cfg: Config, s: State, q: nat, actual: nat)
    requires ValidConfig(cfg) && cfg.ttl <= 7200
    requires BucketInv(cfg, s) && CapInv(cfg, s) && Enabled(cfg, s, Settle(q, actual))
    ensures CapInv(cfg, Apply(cfg, s, Settle(q, actual)))
  {
    var s' := Apply(cfg, s, Settle(q, actual));
    assert TimelyCall(cfg, s, s.calls[q]);
    SettledReadIsExact(cfg, s, q);
    SetCallKeepsScans(s, q, s'.calls[q]);
    SetCallKeepsAdmitted(cfg, s, q, s'.calls[q]);
    var u := SetCall(s, q, s'.calls[q]);
    forall i | 0 <= i < |s.calls| ensures ScanInv(s', i) && AdmitInv(cfg, s', i) {
      assert (i != q ==> ScanInv(u, i)) && AdmitInv(cfg, u, i);
    }
  }

  lemma StepKeepsCap(cfg: Config, s: State, step: Step)
    requires ValidConfig(cfg) && cfg.ttl <= 7200
    requires BucketInv(cfg, s) && CapInv(cfg, s) && Enabled(cfg, s, step)
    ensures CapInv(cfg, Apply(cfg, s, step))
  {
    var s' := Apply(cfg, s, step);
    match step
    case Tick(_) => SameCallsKeepCap(cfg, s, s');
    case Begin(_, _, _) => SameCallsKeepCap(cfg, s, s');
    case Try(a) => TryKeepsCap(cfg, s, a);
    case ReadClock(q) =>
      WindowSeesEveryone(cfg, s, q);
      ScanStepKeepsCap(cfg, s, q, s'.calls[q].phase);
    case ReadBucket(q) => ReadBucketKeepsCap(cfg, s, q);
    case ReadSettled(q) => DecisionKeepsCap(cfg, s, q);
    case Settle(q, actual) => SettleKeepsCap(cfg, s, q, actual);
    case Fail(q) => LeavingKeepsCap(cfg, s, q, s');
    case LoseSettlement(q) => LeavingKeepsCap(cfg, s, q, s');
    case RollBack(q, _) => LeavingKeepsCap(cfg, s, q, s');
    case Release(q, _) => LeavingKeepsCap(cfg, s, q, s');
    case ReleaseSettled(q, _) => LeavingKeepsCap(cfg, s, q, s');
  }

  // ----- Runs -----

  lemma {:induction false} RunKeepsBuckets(cfg: Config, s: State, steps: seq<Step>, t: State)
    requires ValidConfig(cfg) && BucketInv(cfg, s)
    requires Exec(cfg, s, steps) == Some(t)
    ensures BucketInv(cfg, t)
    ensures cfg.ttl <= 7200 && CapInv(cfg, s) ==> CapInv(cfg, t)
    decreases |steps|
  {
    if steps != [] {
      StepKeepsBuckets(cfg, s, steps[0]);
      if cfg.ttl <= 7200 && CapInv(cfg, s) { StepKeepsCap(cfg, s, steps[0]); }
      RunKeepsBuckets(cfg, Apply(cfg, s, steps[0]), steps[1..], t);
    }
  }

  lemma ReachableInv(cfg: Config, s: State)
    requires ValidConfig(cfg) && Reachable(cfg, s)
    ensures BucketInv(cfg, s)
    ensures cfg.ttl <= 7200 ==> CapInv(cfg, s)
  {
    var steps :| Exec(cfg, Init(cfg), steps) == Some(s);
    RunKeepsBuckets(cfg, Init(cfg), steps, s);
  }

  /** Cap safety: in every interleaving, judged by the last adder among the admitted. */
  lemma CapSafety(cfg: Config, s: State)
    requires ValidConfig(cfg) && cfg.ttl <= 7200 && Reachable(cfg, s)
    ensures CapHolds(cfg, s)
  {
    ReachableInv(cfg, s);
    var last := LastDecided(s.calls, |s.calls|);
    var n := last + 1;
    assert n > 0 ==> AdmitInv(cfg, s, last);
    SumTailZero(s.calls, n, ExposureFn());
    forall c | c in s.calls[..n] ensures ExposureFn()(c) <= CoveredFn()(c) + OverrunFn()(c) {
      assert TimelyCall(cfg, s, c);
    }
    SumLeAdd(s.calls[..n], ExposureFn(), CoveredFn(), OverrunFn());
    SumPrefix(s.calls, n, OverrunFn());
  }

  lemma {:induction false} LastDecided(calls: seq<Call>, n: nat) returns (last: int)
    requires n <= |calls|
    ensures -1 <= last < n
    ensures last >= 0 ==> Decided(calls[last].phase)
    ensures forall i :: last < i < n ==> !Decided(calls[i].phase)
  {
    if n == 0 || Decided(calls[n - 1].phase) {
      last := n - 1;
    } else {
      last := LastDecided(calls, n - 1);
    }
  }
}
