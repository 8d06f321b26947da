/** Lock-free admission against one user's AI budget of one UTC day.

    Every cache call is one atomic step; any number of requests interleave. A request reads the clock (`Begin`), adds
    its cents (`Try`), reads the clock again (`ReadClock`), scans the window bucket by bucket (`ReadBucket`), reads
    settled spend last (`ReadSettled`), and is admitted or rolls its cents back. Calls appear in the order of their
    additions. */
module BudgetAdmission {
  import opened Options
  import opened Sums
  import opened BudgetWindow

  // The user's keys of one day: one counter per reservation bucket, one for settled spend.
  datatype Key = Bucket(index: int) | DaySpend

  // A cache entry stops being readable at `expires`.
  datatype Counter = Counter(value: int, expires: real)

  datatype Phase =
    | Placed                                           // cents added, window not chosen yet
    | Scanning(next: int, last: int, total: int)       // buckets next..last are still to be read
    | Denied                                           // cents not rolled back yet
    | Admitted
    | Settling(actual: nat)                            // actual cost counted, reservation not released yet
    | Settled(actual: nat)
    | Closed                                           // rolled back or released
    | Unrecorded                                       // settlement could not be written

  // `held`: the call's cents are still inside its bucket's counter.
  datatype Call = Call(started: real, placed: real, cents: int, phase: Phase, held: bool)

  // A request that has not added its cents yet, and how many cache calls it has tried for it.
  datatype Attempt = Attempt(started: real, placed: real, cents: int, tries: nat)

  datatype Config = Config(limit: int, ttl: int, dayStart: real)

  datatype State = State(clock: real, cache: map<Key, Counter>, attempts: seq<Attempt>, calls: seq<Call>)

  datatype Step =
    | Tick(seconds: real)
    | Begin(started: real, placed: real, cents: int)
    | Try(a: nat)
    | ReadClock(q: nat)
    | ReadBucket(q: nat)
    | ReadSettled(q: nat)
    | Fail(q: nat)                       // a cache error after the cents were added
    | RollBack(q: nat, written: bool)
    | Settle(q: nat, actual: nat)
    | LoseSettlement(q: nat)             // a cache error while recording actual usage
    | Release(q: nat, written: bool)     // work that was not billed
    | ReleaseSettled(q: nat, written: bool)

  ghost predicate ValidConfig(cfg: Config) {
    0 <= cfg.ttl && 0.0 <= cfg.dayStart
  }

  // ----- The cache -----

  predicate Live(m: map<Key, Counter>, k: Key, clock: real) { k in m && clock < m[k].expires }

  // `_read_counter` clamps what it reads at zero.
  function Read(m: map<Key, Counter>, k: Key, clock: real): int {
    if Live(m, k, clock) then Max(0, m[k].value) else 0
  }

  // `add` or `incr`, whichever the key's presence selects; an increment keeps the key's lifetime.
  function Deposit(m: map<Key, Counter>, k: Key, clock: real, cents: int, lifetime: real): map<Key, Counter> {
    if Live(m, k, clock) then m[k := m[k].(value := m[k].value + cents)] else m[k := Counter(cents, clock + lifetime)]
  }

  // `decr`: a missing key is left alone, and so is everything when the cache call itself fails.
  function Withdraw(m: map<Key, Counter>, k: Key, clock: real, cents: int, written: bool): map<Key, Counter> {
    if written && Live(m, k, clock) then m[k := m[k].(value := m[k].value - cents)] else m
  }

  // ----- Steps -----

  predicate Busy(p: Phase) { p.Placed? || p.Scanning? || p.Denied? || p.Admitted? || p.Settling? }

  function Init(cfg: Config): State { State(cfg.dayStart, map[], [], []) }

  predicate InTime(cfg: Config, started: real, clock: real) { clock <= started + cfg.ttl as real }

  /** Time passes only as long as every unfinished call stays within the reservation lifetime it started with. */
  predicate Enabled(cfg: Config, s: State, step: Step) {
    match step
    case Tick(d) =>
      && 0.0 <= d
      && (forall i :: 0 <= i < |s.attempts| ==> InTime(cfg, s.attempts[i].started, s.clock + d))
      && (forall i :: 0 <= i < |s.calls| && Busy(s.calls[i].phase) ==> InTime(cfg, s.calls[i].started, s.clock + d))
    case Begin(started, placed, cents) =>
      && cfg.dayStart <= started < cfg.dayStart + DAY_SECONDS as real
      && started <= placed <= s.clock
      && InTime(cfg, started, s.clock)
      && 0 < cents
    case Try(a) => a < |s.attempts|
    case ReadClock(q) => q < |s.calls| && s.calls[q].phase.Placed?
    case ReadBucket(q) => q < |s.calls| && s.calls[q].phase.Scanning? && s.calls[q].phase.next <= s.calls[q].phase.last
    case ReadSettled(q) => q < |s.calls| && s.calls[q].phase.Scanning? && s.calls[q].phase.last < s.calls[q].phase.next
    case Fail(q) => q < |s.calls| && (s.calls[q].phase.Placed? || s.calls[q].phase.Scanning?)
    case RollBack(q, _) => q < |s.calls| && s.calls[q].phase.Denied?
    case Settle(q, _) => q < |s.calls| && s.calls[q].phase.Admitted?
    case LoseSettlement(q) => q < |s.calls| && s.calls[q].phase.Admitted?
    case Release(q, _) => q < |s.calls| && s.calls[q].phase.Admitted?
    case ReleaseSettled(q, _) => q < |s.calls| && s.calls[q].phase.Settling?
  }

  function SetCall(s: State, q: nat, c: Call): State
    requires q < |s.calls|
  {
    s.(calls := s.calls[q := c])
  }

  function TakeOut(s: State, q: nat, p: Phase, written: bool): State
    requires q < |s.calls|
  {
    var c := s.calls[q];
    SetCall(s, q, c.(phase := p, held := c.held && !written))
      .(cache := Withdraw(s.cache, Bucket(BucketOf(c.placed)), s.clock, c.cents, written))
  }

  // The four cache calls of one reservation, one per step: add, incr, add again, incr again.
  function TryAdd(cfg: Config, s: State, a: nat): State
    requires a < |s.attempts|
  {
    var t := s.attempts[a];
    var key := Bucket(BucketOf(t.placed));
    var isAdd := t.tries == 0 || t.tries == 2;
    if isAdd != Live(s.cache, key, s.clock) then
      s.(attempts := s.attempts[..a] + s.attempts[a + 1..],
         calls := s.calls + [Call(t.started, t.placed, t.cents, Placed, true)],
         cache := Deposit(s.cache, key, s.clock, t.cents, BucketLifetime(cfg.ttl)))
    else if t.tries < 3 then
      s.(attempts := s.attempts[a := t.(tries := t.tries + 1)])
    else  // the last increment failed: nothing was added, accounting is unavailable
      s.(attempts := s.attempts[..a] + s.attempts[a + 1..])
  }

  function Apply(cfg: Config, s: State, step: Step): State
    requires Enabled(cfg, s, step)
  {
    match step
    case Tick(d) => s.(clock := s.clock + d)
    case Begin(started, placed, cents) => s.(attempts := s.attempts + [Attempt(started, placed, cents, 0)])
    case Try(a) => TryAdd(cfg, s, a)
    case ReadClock(q) =>
      var c := s.calls[q];
      var now := if c.placed <= s.clock then s.clock else c.placed;
      SetCall(s, q, c.(phase := Scanning(WindowLow(now, cfg.ttl), BucketOf(now), 0)))
    case ReadBucket(q) =>
      var c := s.calls[q];
      var p := c.phase;
      SetCall(s, q, c.(phase := Scanning(p.next + 1, p.last, p.total + Read(s.cache, Bucket(p.next), s.clock))))
    case ReadSettled(q) =>
      var c := s.calls[q];
      var over := Read(s.cache, DaySpend, s.clock) + c.phase.total > cfg.limit;
      SetCall(s, q, c.(phase := if over then Denied else Admitted))
    case Fail(q) => SetCall(s, q, s.calls[q].(phase := Denied))
    case RollBack(q, written) => TakeOut(s, q, Closed, written)
    case Settle(q, actual) =>
      SetCall(s, q, s.calls[q].(phase := Settling(actual)))
        .(cache := Deposit(s.cache, DaySpend, s.clock, actual, SETTLED_SECONDS as real))
    case LoseSettlement(q) => SetCall(s, q, s.calls[q].(phase := Unrecorded))
    case Release(q, written) => TakeOut(s, q, Closed, written)
    case ReleaseSettled(q, written) => TakeOut(s, q, Settled(s.calls[q].phase.actual), written)
  }

  /** The state after a run of steps, or none when some step was not enabled. */
  function Exec(cfg: Config, s: State, steps: seq<Step>): Option<State>
    decreases |steps|
  {
    if steps == [] then Some(s)
    else if Enabled(cfg, s, steps[0]) then Exec(cfg, Apply(cfg, s, steps[0]), steps[1..])
    else None
  }

  ghost predicate Reachable(cfg: Config, s: State) { exists steps :: Exec(cfg, Init(cfg), steps) == Some(s) }

  lemma {:induction false} ExecFurther(cfg: Config, s: State, steps: seq<Step>, t: State, step: Step)
    requires Exec(cfg, s, steps) == Some(t) && Enabled(cfg, t, step)
    ensures Exec(cfg, s, steps + [step]) == Some(Apply(cfg, t, step))
    decreases |steps|
  {
    if steps == [] {
      assert [step][1..] == [];
    } else {
      ExecFurther(cfg, Apply(cfg, s, steps[0]), steps[1..], t, step);
      assert (steps + [step])[1..] == steps[1..] + [step];
    }
  }

  lemma ReachFurther(cfg: Config, s: State, step: Step)
    requires Reachable(cfg, s) && Enabled(cfg, s, step)
    ensures Reachable(cfg, Apply(cfg, s, step))
  {
    var steps :| Exec(cfg, Init(cfg), steps) == Some(s);
    ExecFurther(cfg, Init(cfg), steps, s, step);
  }
}
