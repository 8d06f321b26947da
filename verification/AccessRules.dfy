/** Who has access, through what, and until when: the rules for one user. */
module AccessRules {
  import opened Options
  import opened Sums

  type User = nat

  datatype Status = Live | PastDue | Canceled | Unpaid | IncompleteExpired | Other

  // `Live` stands for `active` and `trialing`, which are treated alike, `Other` for any status not named here.
  datatype Subscription =
    Subscription(user: User, plan: string, status: Status, periodEnd: Option<int>, endedAt: Option<int>)

  datatype Package = Package(plan: string, startsAt: int, endsAt: int)

  datatype Seat = Seat(user: User, package: Package, active: bool, removedAt: Option<int>)

  datatype FreeAccess = FreeAccess(user: User, revokedAt: Option<int>)

  datatype Credit = Credit(user: User, spendable: bool, remaining: int, expires: Option<int>)

  datatype Database = Database(users: set<User>, subscriptions: seq<Subscription>, seats: seq<Seat>,
                               frees: seq<FreeAccess>, credits: seq<Credit>)

  datatype Source = BySubscription | ByTeam | ByFreeAccess

  datatype Candidate = Candidate(end: int, source: Source, plan: string)

  datatype Access = Active(source: Source, endsAt: Option<int>) | ReadOnly(endedAt: Option<int>)

  // ----- One row -----

  predicate Paying(status: Status) { status.Live? || status.PastDue? }

  function SubscriptionOffers(s: Subscription, now: int): seq<Candidate> {
    if s.periodEnd.Some? && Paying(s.status) && s.periodEnd.value > now
    then [Candidate(s.periodEnd.value, BySubscription, s.plan)] else []
  }

  function SubscriptionEnds(s: Subscription, now: int): seq<int> {
    if SubscriptionOffers(s, now) != [] then []
    else if s.endedAt.Some? then [s.endedAt.value]
    else if s.periodEnd.Some? && s.periodEnd.value <= now && !s.status.Other? then [s.periodEnd.value]
    else []
  }

  function SeatOffers(s: Seat, now: int): seq<Candidate> {
    if s.active && s.package.startsAt <= now < s.package.endsAt
    then [Candidate(s.package.endsAt, ByTeam, s.package.plan)]
    else []
  }

  function SeatEnds(s: Seat, now: int): seq<int> {
    if SeatOffers(s, now) != [] then []
    else if !s.active && s.removedAt.Some? then [s.removedAt.value]
    else if s.active then (if s.package.endsAt <= now then [s.package.endsAt] else [])
    else [if s.package.endsAt <= now then s.package.endsAt else now]
  }

  // ----- All rows of one user, in table order -----

  // What the rows yield, one after the other.
  function Gather<R, X>(rows: seq<R>, f: R -> seq<X>): seq<X> {
    if rows == [] then [] else Gather(rows[..|rows| - 1], f) + f(rows[|rows| - 1])
  }

  function OffersTo(user: User, now: int): Subscription -> seq<Candidate> {
    (s: Subscription) => if s.user == user then SubscriptionOffers(s, now) else []
  }

  function EndsFor(user: User, now: int): Subscription -> seq<int> {
    (s: Subscription) => if s.user == user then SubscriptionEnds(s, now) else []
  }

  function SeatOffersTo(user: User, now: int): Seat -> seq<Candidate> {
    (s: Seat) => if s.user == user then SeatOffers(s, now) else []
  }

  function SeatEndsFor(user: User, now: int): Seat -> seq<int> {
    (s: Seat) => if s.user == user then SeatEnds(s, now) else []
  }

  function RevokedFor(user: User): FreeAccess -> seq<int> {
    (f: FreeAccess) => if f.user == user && f.revokedAt.Some? then [f.revokedAt.value] else []
  }

  function CountsFor(user: User, now: int): Credit -> int {
    (c: Credit) => if c.user == user && Counts(c, now) then c.remaining else 0
  }

  predicate OpenFree(rows: seq<FreeAccess>, user: User) {
    exists i :: 0 <= i < |rows| && rows[i].user == user && rows[i].revokedAt.None?
  }

  function Candidates(db: Database, user: User, now: int): seq<Candidate> {
    Gather(db.subscriptions, OffersTo(user, now)) + Gather(db.seats, SeatOffersTo(user, now))
  }

  // The first of the rows that end last.
  function Best(rows: seq<Candidate>): (best: Candidate)
    requires rows != []
  {
    if |rows| == 1 then rows[0]
    else
      var best, last := Best(rows[..|rows| - 1]), rows[|rows| - 1];
      if last.end > best.end then last else best
  }

  function Latest(ends: seq<int>): Option<int> {
    if ends == [] then None
    else
      var before, last := Latest(ends[..|ends| - 1]), ends[|ends| - 1];
      if before.Some? && before.value >= last then before else Some(last)
  }

  function AllEnds(db: Database, user: User, now: int): seq<int> {
    Gather(db.subscriptions, EndsFor(user, now)) + Gather(db.seats, SeatEndsFor(user, now))
    + match Latest(Gather(db.frees, RevokedFor(user)))
      case Some(revoked) => [revoked]
      case None => []
  }

  function AccessOf(db: Database, user: User, now: int): Access {
    if OpenFree(db.frees, user) then Active(ByFreeAccess, None)
    else
      var candidates := Candidates(db, user, now);
      if candidates != [] then Active(Best(candidates).source, Some(Best(candidates).end))
      else ReadOnly(Latest(AllEnds(db, user, now)))
  }

  function BalanceOf(rows: seq<Credit>, user: User, now: int): int { Sum(rows, CountsFor(user, now)) }

  predicate Counts(c: Credit, now: int) {
    c.spendable && c.remaining > 0 && (c.expires.None? || c.expires.value > now)
  }

  // ----- What the rules mean -----

  ghost predicate OffersUntil(db: Database, user: User, now: int, source: Source, end: int) {
    match source
    case BySubscription =>
      exists i :: 0 <= i < |db.subscriptions| && db.subscriptions[i].user == user
        && (db.subscriptions[i].status == Live || db.subscriptions[i].status == PastDue)
        && db.subscriptions[i].periodEnd == Some(end) && end > now
    case ByTeam =>
      exists i :: 0 <= i < |db.seats| && db.seats[i].user == user && db.seats[i].active
        && db.seats[i].package.startsAt <= now && db.seats[i].package.endsAt == end && end > now
    case ByFreeAccess => false
  }

  lemma {:induction false} BestIsFirstMaximum(rows: seq<Candidate>)
    requires rows != []
    ensures exists i :: 0 <= i < |rows| && rows[i] == Best(rows) && forall j :: 0 <= j < i ==> rows[j].end < rows[i].end
    ensures forall j :: 0 <= j < |rows| ==> rows[j].end <= Best(rows).end
  {
    var n := |rows| - 1;
    if n == 0 {
      assert rows[0] == Best(rows);
    } else {
      var front := rows[..n];
      BestIsFirstMaximum(front);
      var i :| 0 <= i < n && front[i] == Best(front) && forall j :: 0 <= j < i ==> front[j].end < front[i].end;
      assert forall j :: 0 <= j < n ==> rows[j] == front[j];
      if rows[n].end > Best(front).end {
        assert rows[n] == Best(rows);
      } else {
        assert rows[i] == Best(rows);
      }
    }
  }

  lemma {:induction false} LatestIsMaximum(ends: seq<int>)
    ensures Latest(ends).None? <==> ends == []
    ensures Latest(ends).Some? ==> Latest(ends).value in ends && forall e :: e in ends ==> e <= Latest(ends).value
  {
    if ends != [] {
      LatestIsMaximum(ends[..|ends| - 1]);
      assert ends == ends[..|ends| - 1] + [ends[|ends| - 1]];
    }
  }

  lemma {:induction false} GatheredFrom<R, X>(rows: seq<R>, f: R -> seq<X>, x: X)
    ensures x in Gather(rows, f) <==> exists i :: 0 <= i < |rows| && x in f(rows[i])
  {
    if rows != [] {
      var n := |rows| - 1;
      GatheredFrom(rows[..n], f, x);
      assert forall i :: 0 <= i < n ==> rows[..n][i] == rows[i];
    }
  }

  lemma CandidatesAre(db: Database, user: User, now: int)
    ensures forall c :: c in Candidates(db, user, now) ==> OffersUntil(db, user, now, c.source, c.end)
    ensures forall source, end :: OffersUntil(db, user, now, source, end) ==>
              exists c :: c in Candidates(db, user, now) && c.source == source && c.end == end
  {
    forall c ensures c in Candidates(db, user, now) ==> OffersUntil(db, user, now, c.source, c.end) {
      GatheredFrom(db.subscriptions, OffersTo(user, now), c);
      GatheredFrom(db.seats, SeatOffersTo(user, now), c);
    }
    forall source, end | OffersUntil(db, user, now, source, end)
      ensures exists c :: c in Candidates(db, user, now) && c.source == source && c.end == end
    {
      if source.BySubscription? {
        var i :| 0 <= i < |db.subscriptions| && db.subscriptions[i].user == user
                 && (db.subscriptions[i].status == Live || db.subscriptions[i].status == PastDue)
                 && db.subscriptions[i].periodEnd == Some(end) && end > now;
        var c := Candidate(end, source, db.subscriptions[i].plan);
        GatheredFrom(db.subscriptions, OffersTo(user, now), c);
        assert c in OffersTo(user, now)(db.subscriptions[i]);
        assert c in Candidates(db, user, now);
      } else {
        var i :| 0 <= i < |db.seats| && db.seats[i].user == user && db.seats[i].active
                 && db.seats[i].package.startsAt <= now && db.seats[i].package.endsAt == end && end > now;
        var c := Candidate(end, source, db.seats[i].package.plan);
        GatheredFrom(db.seats, SeatOffersTo(user, now), c);
        assert c in SeatOffersTo(user, now)(db.seats[i]);
        assert c in Candidates(db, user, now);
      }
    }
  }

  lemma {:induction false} SourcesInOrder(db: Database, user: User, now: int, i: nat)
    requires i < |Candidates(db, user, now)|
    ensures Candidates(db, user, now)[i].source
            == if i < |Gather(db.subscriptions, OffersTo(user, now))| then BySubscription else ByTeam
  {
    var c := Candidates(db, user, now)[i];
    if i < |Gather(db.subscriptions, OffersTo(user, now))| {
      assert c in Gather(db.subscriptions, OffersTo(user, now));
      GatheredFrom(db.subscriptions, OffersTo(user, now), c);
    } else {
      assert c in Gather(db.seats, SeatOffersTo(user, now));
      GatheredFrom(db.seats, SeatOffersTo(user, now), c);
    }
  }

  // The best candidate is the latest end on offer; among equal ends a subscription comes first.
  lemma BestMeaning(db: Database, user: User, now: int)
    requires Candidates(db, user, now) != []
    ensures var best := Best(Candidates(db, user, now));
            && OffersUntil(db, user, now, best.source, best.end)
            && (forall source, end :: OffersUntil(db, user, now, source, end) ==> end <= best.end)
            && (OffersUntil(db, user, now, BySubscription, best.end) ==> best.source == BySubscription)
  {
    var rows := Candidates(db, user, now);
    var best := Best(rows);
    CandidatesAre(db, user, now);
    BestIsFirstMaximum(rows);
    assert best in rows;
    if OffersUntil(db, user, now, BySubscription, best.end) {
      var c :| c in rows && c.source == BySubscription && c.end == best.end;
      SubscriptionComesFirst(db, user, now, c);
    }
  }

  // A row of the user that gives access until `end` names this plan.
  ghost predicate NamesPlan(db: Database, user: User, source: Source, end: int, plan: string) {
    match source
    case BySubscription =>
      exists i :: 0 <= i < |db.subscriptions| && db.subscriptions[i].user == user
        && (db.subscriptions[i].status == Live || db.subscriptions[i].status == PastDue)
        && db.subscriptions[i].periodEnd == Some(end) && db.subscriptions[i].plan == plan
    case ByTeam =>
      exists i :: 0 <= i < |db.seats| && db.seats[i].user == user && db.seats[i].active
        && db.seats[i].package.endsAt == end && db.seats[i].package.plan == plan
    case ByFreeAccess => false
  }

  /** The plan that goes with the access is that of a row giving it. */
  lemma PlanIsOfTheBest(db: Database, user: User, now: int)
    requires Candidates(db, user, now) != []
    ensures var best := Best(Candidates(db, user, now)); NamesPlan(db, user, best.source, best.end, best.plan)
  {
    var best := Best(Candidates(db, user, now));
    BestIsFirstMaximum(Candidates(db, user, now));
    assert best in Candidates(db, user, now);
    GatheredFrom(db.subscriptions, OffersTo(user, now), best);
    GatheredFrom(db.seats, SeatOffersTo(user, now), best);
  }

  lemma SubscriptionComesFirst(db: Database, user: User, now: int, c: Candidate)
    requires c in Candidates(db, user, now) && c.source == BySubscription
             && c.end == Best(Candidates(db, user, now)).end
    ensures Best(Candidates(db, user, now)).source == BySubscription
  {
    var rows := Candidates(db, user, now);
    BestIsFirstMaximum(rows);
    var i :| 0 <= i < |rows| && rows[i] == Best(rows) && forall j :: 0 <= j < i ==> rows[j].end < rows[i].end;
    var j :| 0 <= j < |rows| && rows[j] == c;
    SourcesInOrder(db, user, now, i);
    SourcesInOrder(db, user, now, j);
  }

  /** Access is active exactly with an open free access, a paying subscription or a running seat. Free access has no
      end; otherwise access lasts to the latest end on offer, and a subscription is named before a seat ending then. */
  lemma ActiveAccessMeaning(db: Database, user: User, now: int)
    ensures var a := AccessOf(db, user, now);
            && (a.Active? <==> OpenFree(db.frees, user)
                               || exists source, end :: OffersUntil(db, user, now, source, end))
            && (a == Active(ByFreeAccess, None) <==> OpenFree(db.frees, user))
            && (a.Active? && !OpenFree(db.frees, user) ==>
                  && a.endsAt.Some? && OffersUntil(db, user, now, a.source, a.endsAt.value)
                  && (forall source, end :: OffersUntil(db, user, now, source, end) ==> end <= a.endsAt.value)
                  && (a.source.BySubscription? <==> OffersUntil(db, user, now, BySubscription, a.endsAt.value)))
  {
    if Candidates(db, user, now) != [] { BestMeaning(db, user, now); } else { CandidatesAre(db, user, now); }
  }

  /** When something of the user's ended. A subscription that gives no access ended when it is recorded to, or else with
      its period, if its status says that it did; a seat that gives none ended when it was removed, or with its package,
      or just now if neither is known; a free access ended when it was revoked. */
  ghost predicate EndedAt(db: Database, user: User, now: int, end: int) {
    || (exists i :: 0 <= i < |db.subscriptions| && db.subscriptions[i].user == user
          && SubscriptionEnded(db.subscriptions[i], now, end))
    || (exists i :: 0 <= i < |db.seats| && db.seats[i].user == user && SeatEnded(db.seats[i], now, end))
    || (exists i :: 0 <= i < |db.frees| && db.frees[i].user == user && db.frees[i].revokedAt == Some(end))
  }

  ghost predicate SubscriptionEnded(s: Subscription, now: int, end: int) {
    && !((s.status == Live || s.status == PastDue) && s.periodEnd.Some? && now < s.periodEnd.value)
    && (s.endedAt == Some(end)
        || (s.endedAt == None && s.periodEnd == Some(end) && end <= now && s.status != Other))
  }

  ghost predicate SeatEnded(s: Seat, now: int, end: int) {
    if s.active then s.package.endsAt == end && end <= now
    else if s.removedAt.Some? then s.removedAt == Some(end)
    else end == Min(s.package.endsAt, now)
  }

  lemma SubscriptionEndIs(s: Subscription, user: User, now: int, end: int)
    ensures (end in EndsFor(user, now)(s)) <==> s.user == user && SubscriptionEnded(s, now, end)
  {
  }

  lemma SubscriptionsEnded(rows: seq<Subscription>, user: User, now: int, end: int)
    ensures (end in Gather(rows, EndsFor(user, now)))
            <==> exists i :: 0 <= i < |rows| && rows[i].user == user && SubscriptionEnded(rows[i], now, end)
  {
    var f := EndsFor(user, now);
    GatheredFrom(rows, f, end);
    forall i | 0 <= i < |rows|
      ensures (end in f(rows[i])) <==> rows[i].user == user && SubscriptionEnded(rows[i], now, end)
    {
      SubscriptionEndIs(rows[i], user, now, end);
    }
  }

  lemma SeatEndIs(s: Seat, user: User, now: int, end: int)
    ensures (end in SeatEndsFor(user, now)(s)) <==> s.user == user && SeatEnded(s, now, end)
  {
  }

  lemma SeatsEnded(rows: seq<Seat>, user: User, now: int, end: int)
    ensures (end in Gather(rows, SeatEndsFor(user, now)))
            <==> exists i :: 0 <= i < |rows| && rows[i].user == user && SeatEnded(rows[i], now, end)
  {
    var f := SeatEndsFor(user, now);
    GatheredFrom(rows, f, end);
    forall i | 0 <= i < |rows| ensures (end in f(rows[i])) <==> rows[i].user == user && SeatEnded(rows[i], now, end) {
      SeatEndIs(rows[i], user, now, end);
    }
  }

  lemma FreesEnded(rows: seq<FreeAccess>, user: User, end: int)
    ensures (end in Gather(rows, RevokedFor(user)))
            <==> exists i :: 0 <= i < |rows| && rows[i].user == user && rows[i].revokedAt == Some(end)
  {
    GatheredFrom(rows, RevokedFor(user), end);
    forall i | 0 <= i < |rows|
      ensures (end in RevokedFor(user)(rows[i])) <==> rows[i].user == user && rows[i].revokedAt == Some(end) {}
  }

  function PastEnds(db: Database, user: User, now: int): seq<int> {
    Gather(db.subscriptions, EndsFor(user, now)) + Gather(db.seats, SeatEndsFor(user, now))
    + Gather(db.frees, RevokedFor(user))
  }

  lemma EndsAreRecorded(db: Database, user: User, now: int, end: int)
    ensures EndedAt(db, user, now, end) <==> end in PastEnds(db, user, now)
  {
    SubscriptionsEnded(db.subscriptions, user, now, end);
    SeatsEnded(db.seats, user, now, end);
    FreesEnded(db.frees, user, end);
  }

  /** One credit more adds what it holds exactly if it is the user's, can be spent, and has not expired by now. */
  lemma BalanceMeaning(rows: seq<Credit>, c: Credit, user: User, now: int)
    ensures BalanceOf([], user, now) == 0
    ensures BalanceOf(rows + [c], user, now) == BalanceOf(rows, user, now)
            + if c.user == user && c.spendable && 0 < c.remaining && (c.expires == None || now < c.expires.value)
              then c.remaining else 0
  {
    SumAppend(rows, c, CountsFor(user, now));
  }

  /** Read-only access names the latest of all past ends, or none if there was never any. */
  lemma ReadOnlyMeaning(db: Database, user: User, now: int)
    requires AccessOf(db, user, now).ReadOnly?
    ensures var ended := AccessOf(db, user, now).endedAt;
            && (ended.None? <==> forall e :: !EndedAt(db, user, now, e))
            && (ended.Some? ==> EndedAt(db, user, now, ended.value)
                                && forall e :: EndedAt(db, user, now, e) ==> e <= ended.value)
  {
    var ended := AccessOf(db, user, now).endedAt;
    LatestEnd(db, user, now);
    if ended.None? {
      forall e ensures !EndedAt(db, user, now, e) { EndsAreRecorded(db, user, now, e); }
    } else {
      EndsAreRecorded(db, user, now, ended.value);
      forall e | EndedAt(db, user, now, e) ensures e <= ended.value { EndsAreRecorded(db, user, now, e); }
    }
  }

  lemma LatestEnd(db: Database, user: User, now: int)
    ensures var latest, ends := Latest(AllEnds(db, user, now)), PastEnds(db, user, now);
            && (latest.None? <==> ends == [])
            && (latest.Some? ==> latest.value in ends && forall e :: e in ends ==> e <= latest.value)
  {
    LatestOfTwo(Gather(db.subscriptions, EndsFor(user, now)) + Gather(db.seats, SeatEndsFor(user, now)),
                Gather(db.frees, RevokedFor(user)));
  }

  // The latest of some of the ends may stand for all of them.
  lemma LatestOfTwo(a: seq<int>, b: seq<int>)
    ensures var latest := Latest(a + match Latest(b) case Some(e) => [e] case None => []);
            && (latest.None? <==> a + b == [])
            && (latest.Some? ==> latest.value in a + b && forall e :: e in a + b ==> e <= latest.value)
  {
    LatestIsMaximum(b);
    if b == [] {
      assert a + b == a == a + [];
      LatestIsMaximum(a);
    } else {
      var m, last := Latest(b).value, Latest(a + [Latest(b).value]).value;
      LatestIsMaximum(a + [m]);
      assert m in a + [m];
      forall e | e in a + b ensures e <= last {
        if e in a { assert e in a + [m]; }
      }
    }
  }
}
