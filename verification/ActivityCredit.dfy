/** Presence on one object: every ping credits the capped time since the user's last ping to the current hour. */
module ActivityCredit {
  import opened Options
  import opened Sums

  type User = nat

  // Times are microseconds since the epoch, hours are counted from there.
  const SECOND := 1_000_000
  const HOUR := 3600 * SECOND

  datatype Bucket = Bucket(user: User, hour: int, seconds: int, lastPing: Option<int>)

  datatype Ping = Ping(user: User, at: int)

  // ----- One ping -----

  function Find(rows: seq<Bucket>, user: User, hour: int): (i: nat)
    ensures i <= |rows| && (i < |rows| ==> rows[i].user == user && rows[i].hour == hour)
    ensures forall j :: 0 <= j < i ==> !(rows[j].user == user && rows[j].hour == hour)
  {
    if rows == [] || (rows[0].user == user && rows[0].hour == hour) then 0 else 1 + Find(rows[1..], user, hour)
  }

  // The latest ping of the user, in whatever hour.
  function LastPing(rows: seq<Bucket>, user: User): Option<int> {
    if rows == [] then None
    else
      var before, r := LastPing(rows[..|rows| - 1], user), rows[|rows| - 1];
      if r.user != user || r.lastPing.None? || (before.Some? && before.value >= r.lastPing.value)
      then before
      else r.lastPing
  }

  // Whole seconds since the last ping, at most the cap; none for a first ping.
  function Delta(last: Option<int>, now: int, cap: nat): nat {
    if last.None? then 0 else Max(0, Min(cap, (now - last.value) / SECOND))
  }

  function Pinged(rows: seq<Bucket>, user: User, now: int, cap: nat): seq<Bucket> {
    var hour, delta := now / HOUR, Delta(LastPing(rows, user), now, cap);
    var i := Find(rows, user, hour);
    if i < |rows| then rows[i := rows[i].(seconds := rows[i].seconds + delta, lastPing := Some(now))]
    else rows + [Bucket(user, hour, delta, Some(now))]
  }

  // ----- Runs, and what they should credit -----

  function Run(pings: seq<Ping>, cap: nat): seq<Bucket> {
    if pings == [] then []
    else Pinged(Run(pings[..|pings| - 1], cap), pings[|pings| - 1].user, pings[|pings| - 1].at, cap)
  }

  function Times(pings: seq<Ping>, user: User): seq<int> {
    if pings == [] then []
    else Times(pings[..|pings| - 1], user) + if pings[|pings| - 1].user == user then [pings[|pings| - 1].at] else []
  }

  // The sum of the capped gaps between successive pings.
  function CappedGaps(times: seq<int>, cap: nat): nat {
    if |times| < 2 then 0
    else CappedGaps(times[..|times| - 1], cap) + Delta(Some(times[|times| - 2]), times[|times| - 1], cap)
  }

  function Final(times: seq<int>): Option<int> { if times == [] then None else Some(times[|times| - 1]) }

  function InHour(pings: seq<Ping>, hour: int): seq<Ping> {
    if pings == [] then []
    else InHour(pings[..|pings| - 1], hour) + if pings[|pings| - 1].at / HOUR == hour then [pings[|pings| - 1]] else []
  }

  // The clock never goes back.
  ghost predicate Monotone(pings: seq<Ping>) {
    forall i, j :: 0 <= i < j < |pings| ==> pings[i].at <= pings[j].at
  }

  ghost function SecondsOf(user: User): Bucket -> int { (r: Bucket) => if r.user == user then r.seconds else 0 }

  // ----- What one ping credits -----

  // The gap in whole seconds of 1000000 microseconds, but never more than the cap.
  ghost predicate CreditsGap(credit: int, gap: int, cap: nat) {
    if cap * 1_000_000 <= gap then credit == cap else credit * 1_000_000 <= gap < (credit + 1) * 1_000_000
  }

  /** After any run, a further ping adds the whole seconds since the user's last one, and the cap for a longer gap, to
      the user's credit; a first ping adds nothing, and no other user's credit changes. */
  lemma PingCreditsItsGap(pings: seq<Ping>, cap: nat, user: User, now: int, other: User)
    requires Monotone(pings) && forall i :: 0 <= i < |pings| ==> pings[i].at <= now
    ensures var before, after := Run(pings, cap), Pinged(Run(pings, cap), user, now, cap);
            var credit, times := Sum(after, SecondsOf(other)) - Sum(before, SecondsOf(other)), Times(pings, user);
            && (other != user || times == [] ==> credit == 0)
            && (other == user && times != [] ==> CreditsGap(credit, now - times[|times| - 1], cap))
  {
    RunKeepsInv(pings, cap);
    var before := Run(pings, cap);
    assert UserOk(before, pings, cap, user);
    if other == user {
      OwnSecondsGrow(before, user, now, cap);
      if Times(pings, user) != [] { LastTimeIsNotLater(pings, user, now); }
    } else {
      assert UserOk(before, pings, cap, other);
      OthersUntouched(before, pings, Ping(user, now), cap, other);
      assert (pings + [Ping(user, now)])[..|pings|] == pings;
      assert Times(pings + [Ping(user, now)], other) == Times(pings, other);
    }
  }

  lemma LastTimeIsNotLater(pings: seq<Ping>, user: User, now: int)
    requires Times(pings, user) != [] && forall i :: 0 <= i < |pings| ==> pings[i].at <= now
    ensures Times(pings, user)[|Times(pings, user)| - 1] <= now
  {
    TimesAreTimes(pings, user, |Times(pings, user)| - 1);
  }

  /** The credit goes to the hour of the ping, of 3600 seconds, and the ping becomes its latest. */
  lemma PingGoesToItsHour(rows: seq<Bucket>, user: User, now: int, cap: nat)
    ensures var after := Pinged(rows, user, now, cap);
            exists i :: 0 <= i < |after| && after[i].user == user && after[i].lastPing == Some(now)
              && after[i].hour * 3600 * 1_000_000 <= now < (after[i].hour + 1) * 3600 * 1_000_000
              && (forall j :: 0 <= j < |rows| && j != i ==> j < |after| && after[j] == rows[j])
  {
    var i := Find(rows, user, now / HOUR);
    HourHolds(now);
    assert Pinged(rows, user, now, cap)[i].lastPing == Some(now);
  }

  lemma HourHolds(now: int)
    ensures now / HOUR * 3600 * 1_000_000 <= now < (now / HOUR + 1) * 3600 * 1_000_000
  {
  }

  // ----- Latest pings -----

  lemma {:induction false} LastPingIsLatest(rows: seq<Bucket>, user: User)
    ensures LastPing(rows, user).Some? ==>
              exists i :: 0 <= i < |rows| && rows[i].user == user && rows[i].lastPing == LastPing(rows, user)
    ensures forall i :: 0 <= i < |rows| && rows[i].user == user && rows[i].lastPing.Some? ==>
              LastPing(rows, user).Some? && rows[i].lastPing.value <= LastPing(rows, user).value
  {
    if rows != [] {
      var n := |rows| - 1;
      LastPingIsLatest(rows[..n], user);
      assert forall i :: 0 <= i < n ==> rows[..n][i] == rows[i];
    }
  }

  lemma {:induction false} LastPingOfOthers(rows: seq<Bucket>, i: nat, r: Bucket, user: User)
    requires i < |rows| && r.user != user && rows[i].user != user
    ensures LastPing(rows[i := r], user) == LastPing(rows, user)
  {
    var n := |rows| - 1;
    if i == n {
      assert rows[i := r][..n] == rows[..n];
    } else {
      LastPingOfOthers(rows[..n], i, r, user);
      assert rows[i := r][..n] == rows[..n][i := r];
    }
  }

  // ----- What every run keeps -----

  ghost predicate BucketOk(r: Bucket, pings: seq<Ping>, cap: nat) {
    && r.lastPing == Final(Times(InHour(pings, r.hour), r.user)) && r.lastPing.Some?
    && r.hour * HOUR <= r.lastPing.value
    && 0 <= r.seconds && r.seconds * SECOND <= r.lastPing.value - r.hour * HOUR + cap * SECOND
  }

  ghost predicate Inv(rows: seq<Bucket>, pings: seq<Ping>, cap: nat) {
    && (forall i, j :: 0 <= i < j < |rows| ==> rows[i].user != rows[j].user || rows[i].hour != rows[j].hour)
    && (forall i :: 0 <= i < |rows| ==> BucketOk(rows[i], pings, cap))
    && (forall user: User :: UserOk(rows, pings, cap, user))
  }

  ghost predicate UserOk(rows: seq<Bucket>, pings: seq<Ping>, cap: nat, user: User) {
    && LastPing(rows, user) == Final(Times(pings, user))
    && Sum(rows, SecondsOf(user)) == CappedGaps(Times(pings, user), cap)
  }

  ghost predicate PingedAt(pings: seq<Ping>, user: User, at: int) {
    exists j :: 0 <= j < |pings| && pings[j].user == user && pings[j].at == at
  }

  lemma {:induction false} TimesAreTimes(pings: seq<Ping>, user: User, i: nat)
    requires i < |Times(pings, user)|
    ensures PingedAt(pings, user, Times(pings, user)[i])
  {
    var n := |pings| - 1;
    var front := Times(pings[..n], user);
    if i < |front| {
      TimesAreTimes(pings[..n], user, i);
      var j :| 0 <= j < n && pings[..n][j].user == user && pings[..n][j].at == front[i];
      assert pings[j] == pings[..n][j];
    } else {
      assert pings[n].user == user;
    }
  }

  // Nobody pinged after the given time, so neither did this user.
  lemma FinalIsBounded(pings: seq<Ping>, user: User, now: int)
    requires forall j :: 0 <= j < |pings| ==> pings[j].at <= now
    ensures Final(Times(pings, user)).Some? ==> Final(Times(pings, user)).value <= now
  {
    var times := Times(pings, user);
    if times != [] { TimesAreTimes(pings, user, |times| - 1); }
  }

  lemma {:induction false} TimesAreSorted(pings: seq<Ping>, user: User)
    requires Monotone(pings)
    ensures forall i, j :: 0 <= i < j < |Times(pings, user)| ==> Times(pings, user)[i] <= Times(pings, user)[j]
  {
    if pings != [] {
      var n := |pings| - 1;
      assert forall j :: 0 <= j < n ==> pings[..n][j] == pings[j];
      TimesAreSorted(pings[..n], user);
      forall i | 0 <= i < |Times(pings[..n], user)| ensures Times(pings[..n], user)[i] <= pings[n].at {
        TimesAreTimes(pings[..n], user, i);
      }
    }
  }

  // A step does not touch another user's credit or pings.
  lemma OthersUntouched(rows: seq<Bucket>, pings: seq<Ping>, p: Ping, cap: nat, user: User)
    requires UserOk(rows, pings, cap, user) && user != p.user
    ensures UserOk(Pinged(rows, p.user, p.at, cap), pings + [p], cap, user)
  {
    var hour, delta := p.at / HOUR, Delta(LastPing(rows, p.user), p.at, cap);
    var i := Find(rows, p.user, hour);
    assert (pings + [p])[..|pings|] == pings;
    assert Times(pings + [p], user) == Times(pings, user);
    if i < |rows| {
      var r := rows[i].(seconds := rows[i].seconds + delta, lastPing := Some(p.at));
      LastPingOfOthers(rows, i, r, user);
      SumUpdate(rows, i, r, SecondsOf(user));
    } else {
      var r := Bucket(p.user, hour, delta, Some(p.at));
      assert (rows + [r])[..|rows|] == rows;
      SumAppend(rows, r, SecondsOf(user));
    }
  }

  // The new ping is the user's latest, and the user's credit grows by its delta.
  lemma OwnPingIsLatest(rows: seq<Bucket>, user: User, now: int, cap: nat)
    requires forall i :: 0 <= i < |rows| && rows[i].lastPing.Some? ==> rows[i].lastPing.value <= now
    ensures LastPing(Pinged(rows, user, now, cap), user) == Some(now)
  {
    var i, after := Find(rows, user, now / HOUR), Pinged(rows, user, now, cap);
    assert after[i].user == user && after[i].lastPing == Some(now);
    LastPingIsLatest(after, user);
  }

  lemma OwnSecondsGrow(rows: seq<Bucket>, user: User, now: int, cap: nat)
    ensures Sum(Pinged(rows, user, now, cap), SecondsOf(user))
            == Sum(rows, SecondsOf(user)) + Delta(LastPing(rows, user), now, cap)
  {
    var i, after := Find(rows, user, now / HOUR), Pinged(rows, user, now, cap);
    if i < |rows| {
      SumUpdate(rows, i, after[i], SecondsOf(user));
    } else {
      SumAppend(rows, after[i], SecondsOf(user));
    }
  }

  lemma OwnCreditGrows(rows: seq<Bucket>, pings: seq<Ping>, p: Ping, cap: nat)
    requires UserOk(rows, pings, cap, p.user)
    requires forall i :: 0 <= i < |rows| && rows[i].lastPing.Some? ==> rows[i].lastPing.value <= p.at
    ensures UserOk(Pinged(rows, p.user, p.at, cap), pings + [p], cap, p.user)
  {
    var times := Times(pings, p.user);
    assert (pings + [p])[..|pings|] == pings;
    assert Times(pings + [p], p.user) == times + [p.at];
    assert (times + [p.at])[..|times|] == times;
    OwnPingIsLatest(rows, p.user, p.at, cap);
    OwnSecondsGrow(rows, p.user, p.at, cap);
  }

  // Each hour's bucket keeps its bound.
  lemma BucketsStayOk(rows: seq<Bucket>, pings: seq<Ping>, p: Ping, cap: nat, i: nat)
    requires i < |Pinged(rows, p.user, p.at, cap)|
    requires forall j :: 0 <= j < |rows| ==> BucketOk(rows[j], pings, cap) && rows[j].lastPing.value <= p.at
    requires LastPing(rows, p.user).Some? ==> LastPing(rows, p.user).value <= p.at
    requires forall j, k :: 0 <= j < k < |rows| ==> rows[j].user != rows[k].user || rows[j].hour != rows[k].hour
    ensures BucketOk(Pinged(rows, p.user, p.at, cap)[i], pings + [p], cap)
  {
    var after := Pinged(rows, p.user, p.at, cap);
    var r, hour := after[i], p.at / HOUR;
    assert (pings + [p])[..|pings|] == pings;
    var before := InHour(pings, r.hour);
    if r.user == p.user && r.hour == hour {
      assert InHour(pings + [p], hour) == before + [p];
      assert (before + [p])[..|before|] == before;
      assert r.lastPing == Some(p.at);
      LastPingIsLatest(rows, p.user);
    } else {
      assert r == rows[i];
      assert InHour(pings + [p], r.hour) == before + if r.hour == hour then [p] else [];
      if r.hour == hour {
        assert (before + [p])[..|before|] == before;
        assert Times(before + [p], r.user) == Times(before, r.user) + [];
      } else {
        assert before + [] == before;
      }
    }
  }

  // No ping of the past is later than the new one, neither in the buckets nor by user.
  lemma PastPingsAreEarlier(rows: seq<Bucket>, pings: seq<Ping>, cap: nat, now: int)
    requires Inv(rows, pings, cap) && forall j :: 0 <= j < |pings| ==> pings[j].at <= now
    ensures forall i :: 0 <= i < |rows| ==> rows[i].lastPing.Some? && rows[i].lastPing.value <= now
    ensures forall user :: LastPing(rows, user).Some? ==> LastPing(rows, user).value <= now
  {
    forall user | LastPing(rows, user).Some? ensures LastPing(rows, user).value <= now {
      assert UserOk(rows, pings, cap, user);
      FinalIsBounded(pings, user, now);
    }
    forall i | 0 <= i < |rows| ensures rows[i].lastPing.Some? && rows[i].lastPing.value <= now {
      assert BucketOk(rows[i], pings, cap);
      LastPingIsLatest(rows, rows[i].user);
    }
  }

  lemma StepKeepsInv(rows: seq<Bucket>, pings: seq<Ping>, p: Ping, cap: nat)
    requires Inv(rows, pings, cap) && forall j :: 0 <= j < |pings| ==> pings[j].at <= p.at
    ensures Inv(Pinged(rows, p.user, p.at, cap), pings + [p], cap)
  {
    var after := Pinged(rows, p.user, p.at, cap);
    PastPingsAreEarlier(rows, pings, cap, p.at);
    forall i | 0 <= i < |after| ensures BucketOk(after[i], pings + [p], cap) { BucketsStayOk(rows, pings, p, cap, i); }
    forall user: User ensures UserOk(after, pings + [p], cap, user) {
      assert UserOk(rows, pings, cap, user);
      if user == p.user { OwnCreditGrows(rows, pings, p, cap); } else { OthersUntouched(rows, pings, p, cap, user); }
    }
  }

  lemma {:induction false} RunKeepsInv(pings: seq<Ping>, cap: nat)
    requires Monotone(pings)
    ensures Inv(Run(pings, cap), pings, cap)
  {
    if pings == [] {
      forall user: User ensures UserOk([], [], cap, user) {}
    } else {
      var n := |pings| - 1;
      var before, p := pings[..n], pings[n];
      assert pings == before + [p] && forall j :: 0 <= j < n ==> before[j] == pings[j];
      RunKeepsInv(before, cap);
      StepKeepsInv(Run(before, cap), before, p, cap);
      assert Run(pings, cap) == Pinged(Run(before, cap), p.user, p.at, cap);
    }
  }

  /** A user's total credit is the sum of the capped gaps between the user's own pings. */
  lemma CreditIsTheCappedGaps(pings: seq<Ping>, cap: nat, user: User)
    requires Monotone(pings)
    ensures Sum(Run(pings, cap), SecondsOf(user)) == CappedGaps(Times(pings, user), cap)
  {
    RunKeepsInv(pings, cap);
    assert UserOk(Run(pings, cap), pings, cap, user);
  }

  lemma {:induction false} CappedGapsAreBounded(times: seq<int>, cap: nat)
    requires times != [] && forall i, j :: 0 <= i < j < |times| ==> times[i] <= times[j]
    ensures CappedGaps(times, cap) * SECOND <= times[|times| - 1] - times[0]
    ensures CappedGaps(times, cap) <= cap * (|times| - 1)
  {
    var n := |times| - 1;
    if n > 0 {
      CappedGapsAreBounded(times[..n], cap);
      assert times[..n][0] == times[0] && times[..n][n - 1] == times[n - 1];
      assert CappedGaps(times, cap) == CappedGaps(times[..n], cap) + Delta(Some(times[n - 1]), times[n], cap);
      OneMoreCap(cap, n);
    }
  }

  lemma OneMoreCap(cap: nat, n: nat)
    requires n > 0
    ensures cap * (n - 1) + cap == cap * n
  {
  }

  /** The credit never exceeds the time between first and last ping, nor the cap for each ping but the first. */
  lemma CreditIsBounded(pings: seq<Ping>, cap: nat, user: User)
    requires Monotone(pings) && Times(pings, user) != []
    ensures var times := Times(pings, user);
            && Sum(Run(pings, cap), SecondsOf(user)) * SECOND <= times[|times| - 1] - times[0]
            && Sum(Run(pings, cap), SecondsOf(user)) <= cap * (|times| - 1)
  {
    CreditIsTheCappedGaps(pings, cap, user);
    TimesAreSorted(pings, user);
    CappedGapsAreBounded(Times(pings, user), cap);
  }

  /** One hour's credit exceeds the time from the hour's start to the user's last ping in it by at most the cap. */
  lemma HourCreditIsBounded(pings: seq<Ping>, cap: nat, user: User, hour: int)
    requires Monotone(pings) && Find(Run(pings, cap), user, hour) < |Run(pings, cap)|
    ensures var r, last := Run(pings, cap)[Find(Run(pings, cap), user, hour)], Final(Times(InHour(pings, hour), user));
            last.Some? && r.lastPing == last && r.seconds * SECOND <= last.value - hour * HOUR + cap * SECOND
  {
    RunKeepsInv(pings, cap);
    assert BucketOk(Run(pings, cap)[Find(Run(pings, cap), user, hour)], pings, cap);
  }

  /** The buckets of one object, as pings update them. */
  class ActivityBuckets {
    var rows: seq<Bucket>

    constructor ()
      ensures rows == []
    {
      rows := [];
    }

    method RecordPing(user: User, now: int, maxCredit: int)
      modifies this
      ensures rows == Pinged(old(rows), user, now, Max(0, maxCredit))
    {
      var hour, cap := now / HOUR, Max(0, maxCredit);
      var last, delta := LastPing(rows, user), 0;
      if last.Some? { delta := Max(0, Min(cap, (now - last.value) / SECOND)); }
      var i := Find(rows, user, hour);
      if i == |rows| { rows := rows + [Bucket(user, hour, 0, None)]; }
      rows := rows[i := rows[i].(seconds := rows[i].seconds + delta, lastPing := Some(now))];
    }
  }
}
