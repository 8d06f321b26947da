/** The operator's bulk views of access and balances; they agree with the rules for one user. */
module AccessAggregation {
  import opened Options
  import opened AccessRules

  // What the user's subscriptions offer, and where those that offer nothing ended.
  method FromSubscriptions(rows: seq<Subscription>, user: User, now: int)
    returns (candidates: seq<Candidate>, ends: seq<int>)
    ensures candidates == Gather(rows, OffersTo(user, now)) && ends == Gather(rows, EndsFor(user, now))
  {
    candidates, ends := [], [];
    for i := 0 to |rows|
      invariant candidates == Gather(rows[..i], OffersTo(user, now)) && ends == Gather(rows[..i], EndsFor(user, now))
    {
      var s := rows[i];
      assert rows[..i + 1][..i] == rows[..i];
      if s.user == user {
        if s.periodEnd.Some? && Paying(s.status) && s.periodEnd.value > now {
          candidates := candidates + [Candidate(s.periodEnd.value, BySubscription, s.plan)];
        } else if s.endedAt.Some? {
          ends := ends + [s.endedAt.value];
        } else if s.periodEnd.Some? && s.periodEnd.value <= now && !s.status.Other? {
          ends := ends + [s.periodEnd.value];
        }
      }
    }
    assert rows[..|rows|] == rows;
  }

  method FromSeats(rows: seq<Seat>, user: User, now: int) returns (candidates: seq<Candidate>, ends: seq<int>)
    ensures candidates == Gather(rows, SeatOffersTo(user, now)) && ends == Gather(rows, SeatEndsFor(user, now))
  {
    candidates, ends := [], [];
    for i := 0 to |rows|
      invariant candidates == Gather(rows[..i], SeatOffersTo(user, now))
                && ends == Gather(rows[..i], SeatEndsFor(user, now))
    {
      var s := rows[i];
      assert rows[..i + 1][..i] == rows[..i];
      if s.user == user {
        if s.active && s.package.startsAt <= now < s.package.endsAt {
          candidates := candidates + [Candidate(s.package.endsAt, ByTeam, s.package.plan)];
        } else if !s.active && s.removedAt.Some? {
          ends := ends + [s.removedAt.value];
        } else if s.active && s.package.endsAt <= now {
          ends := ends + [s.package.endsAt];
        } else if !s.active {
          ends := ends + [if s.package.endsAt <= now then s.package.endsAt else now];
        }
      }
    }
    assert rows[..|rows|] == rows;
  }

  /** The state of one user. */
  method AccessState(db: Database, user: User, now: int) returns (access: Access)
    ensures access == AccessOf(db, user, now)
  {
    var candidates, ends := FromSubscriptions(db.subscriptions, user, now);
    var team, teamEnds := FromSeats(db.seats, user, now);
    candidates, ends := candidates + team, ends + teamEnds;
    if OpenFree(db.frees, user) { return Active(ByFreeAccess, None); }
    var revoked := Latest(Gather(db.frees, RevokedFor(user)));
    if revoked.Some? { ends := ends + [revoked.value]; }
    assert ends == AllEnds(db, user, now);
    if candidates != [] {
      var best := Best(candidates);
      return Active(best.source, Some(best.end));
    }
    return ReadOnly(Latest(ends));
  }

  /** The spendable tokens of one user. */
  method TokenBalance(db: Database, user: User, now: int) returns (balance: int)
    ensures balance == BalanceOf(db.credits, user, now)
  {
    balance := 0;
    for i := 0 to |db.credits|
      invariant balance == BalanceOf(db.credits[..i], user, now)
    {
      assert db.credits[..i + 1][..i] == db.credits[..i];
      if db.credits[i].user == user && Counts(db.credits[i], now) { balance := balance + db.credits[i].remaining; }
    }
    assert db.credits[..|db.credits|] == db.credits;
  }

  // ----- Overview -----

  // Every row belongs to an existing user.
  ghost predicate ForeignKeys(db: Database) {
    && (forall i :: 0 <= i < |db.subscriptions| ==> db.subscriptions[i].user in db.users)
    && (forall i :: 0 <= i < |db.seats| ==> db.seats[i].user in db.users)
    && (forall i :: 0 <= i < |db.frees| ==> db.frees[i].user in db.users)
  }

  ghost function ActiveUsers(db: Database, now: int): set<User> {
    set u | u in db.users && AccessOf(db, u, now).Active?
  }

  // What a user's access rests on; a subscription is told by its plan.
  datatype Basis = Nothing | Free | TeamSeat | Plan(name: string)

  function BasisOf(c: Candidate): Basis { if c.source.BySubscription? then Plan(c.plan) else TeamSeat }

  function BasisOfAccess(db: Database, user: User, now: int): Basis {
    var access := AccessOf(db, user, now);
    if access.ReadOnly? then Nothing
    else if access.source.ByFreeAccess? then Free
    else if access.source.ByTeam? then TeamSeat
    else Plan(PlanOf(db, user, now))
  }

  // The plan of the candidate that gives access.
  function PlanOf(db: Database, user: User, now: int): string {
    if Candidates(db, user, now) == [] then "" else Best(Candidates(db, user, now)).plan
  }

  ghost function UsersOn(db: Database, now: int, basis: Basis): set<User> {
    set u | u in db.users && BasisOfAccess(db, u, now) == basis
  }

  datatype Overview = Overview(active: nat, bySubscription: map<string, nat>, teamSeats: nat, freeAccess: nat)

  ghost predicate FitsUser(rows: map<User, seq<Candidate>>, user: User, mine: seq<Candidate>) {
    (user in rows <==> mine != []) && (user in rows ==> rows[user] == mine)
  }

  ghost predicate FitsTable(rows: map<User, seq<Candidate>>, subs: seq<Subscription>, seats: seq<Seat>, now: int) {
    forall u :: FitsUser(rows, u, Gather(subs, OffersTo(u, now)) + Gather(seats, SeatOffersTo(u, now)))
  }

  function Extend(rows: map<User, seq<Candidate>>, user: User, more: seq<Candidate>): map<User, seq<Candidate>> {
    if more == [] then rows else rows[user := (if user in rows then rows[user] else []) + more]
  }

  lemma OneSubscriptionMore(rows: map<User, seq<Candidate>>, subs: seq<Subscription>, now: int)
    requires subs != [] && FitsTable(rows, subs[..|subs| - 1], [], now)
    ensures var s := subs[|subs| - 1]; FitsTable(Extend(rows, s.user, SubscriptionOffers(s, now)), subs, [], now)
  {
    var s, before := subs[|subs| - 1], subs[..|subs| - 1];
    forall u
      ensures FitsUser(Extend(rows, s.user, SubscriptionOffers(s, now)), u,
                       Gather(subs, OffersTo(u, now)) + Gather([], SeatOffersTo(u, now)))
    {
      assert FitsUser(rows, u, Gather(before, OffersTo(u, now)) + Gather([], SeatOffersTo(u, now)));
    }
  }

  lemma OneSeatMore(rows: map<User, seq<Candidate>>, subs: seq<Subscription>, seats: seq<Seat>, now: int)
    requires seats != [] && FitsTable(rows, subs, seats[..|seats| - 1], now)
    ensures var s := seats[|seats| - 1]; FitsTable(Extend(rows, s.user, SeatOffers(s, now)), subs, seats, now)
  {
    var s, before := seats[|seats| - 1], seats[..|seats| - 1];
    forall u
      ensures FitsUser(Extend(rows, s.user, SeatOffers(s, now)), u,
                       Gather(subs, OffersTo(u, now)) + Gather(seats, SeatOffersTo(u, now)))
    {
      var mine := Gather(subs, OffersTo(u, now));
      assert FitsUser(rows, u, mine + Gather(before, SeatOffersTo(u, now)));
      assert mine + (Gather(before, SeatOffersTo(u, now)) + SeatOffers(s, now))
             == mine + Gather(before, SeatOffersTo(u, now)) + SeatOffers(s, now);
    }
  }

  // All candidates, grouped by user in table order.
  method Group(db: Database, now: int) returns (rows: map<User, seq<Candidate>>)
    ensures FitsTable(rows, db.subscriptions, db.seats, now)
  {
    rows := map[];
    for i := 0 to |db.subscriptions|
      invariant FitsTable(rows, db.subscriptions[..i], [], now)
    {
      var s := db.subscriptions[i];
      assert db.subscriptions[..i + 1][..i] == db.subscriptions[..i];
      OneSubscriptionMore(rows, db.subscriptions[..i + 1], now);
      if s.periodEnd.Some? && Paying(s.status) && s.periodEnd.value > now {
        var earlier := if s.user in rows then rows[s.user] else [];
        rows := rows[s.user := earlier + [Candidate(s.periodEnd.value, BySubscription, s.plan)]];
      }
    }
    assert db.subscriptions[..|db.subscriptions|] == db.subscriptions;
    for i := 0 to |db.seats|
      invariant FitsTable(rows, db.subscriptions, db.seats[..i], now)
    {
      var s := db.seats[i];
      assert db.seats[..i + 1][..i] == db.seats[..i];
      OneSeatMore(rows, db.subscriptions, db.seats[..i + 1], now);
      if s.active && s.package.startsAt <= now < s.package.endsAt {
        var earlier := if s.user in rows then rows[s.user] else [];
        rows := rows[s.user := earlier + [Candidate(s.package.endsAt, ByTeam, s.package.plan)]];
      }
    }
    assert db.seats[..|db.seats|] == db.seats;
  }

  function Tally(counts: map<string, nat>, plan: string): nat { if plan in counts then counts[plan] else 0 }

  // Of the users gone through, those whose best candidate is of the given kind.
  ghost function Counted(rows: map<User, seq<Candidate>>, done: set<User>, basis: Basis): set<User> {
    set u | u in done && u in rows && rows[u] != [] && BasisOf(Best(rows[u])) == basis
  }

  lemma OneUserMore(rows: map<User, seq<Candidate>>, done: set<User>, user: User, basis: Basis)
    requires user in rows && rows[user] != [] && user !in done
    ensures |Counted(rows, done + {user}, basis)|
            == |Counted(rows, done, basis)| + if BasisOf(Best(rows[user])) == basis then 1 else 0
  {
    if BasisOf(Best(rows[user])) == basis {
      assert Counted(rows, done + {user}, basis) == Counted(rows, done, basis) + {user};
    } else {
      assert Counted(rows, done + {user}, basis) == Counted(rows, done, basis);
    }
  }

  ghost predicate Tallied(counts: map<string, nat>, rows: map<User, seq<Candidate>>, done: set<User>) {
    forall plan :: Tally(counts, plan) == |Counted(rows, done, Plan(plan))| && (plan in counts ==> counts[plan] > 0)
  }

  lemma TallyOneMore(counts: map<string, nat>, rows: map<User, seq<Candidate>>, done: set<User>, user: User)
    requires Tallied(counts, rows, done) && user in rows && rows[user] != [] && user !in done
    ensures var best := Best(rows[user]);
            Tallied(if best.source.BySubscription? then counts[best.plan := Tally(counts, best.plan) + 1] else counts,
                    rows, done + {user})
  {
    var best := Best(rows[user]);
    var after := if best.source.BySubscription? then counts[best.plan := Tally(counts, best.plan) + 1] else counts;
    forall plan
      ensures Tally(after, plan) == |Counted(rows, done + {user}, Plan(plan))| && (plan in after ==> after[plan] > 0)
    {
      OneUserMore(rows, done, user, Plan(plan));
      assert Tally(counts, plan) == |Counted(rows, done, Plan(plan))| && (plan in counts ==> counts[plan] > 0);
    }
  }

  lemma OneFewerOpen(all: set<User>, open: set<User>, done: set<User>, user: User)
    requires open == all - done && done <= all && user in open
    ensures open - {user} == all - (done + {user}) && done + {user} <= all && user in all && user !in done
    ensures |done + {user}| == |done| + 1 && |open - {user}| < |open|
  {
  }

  datatype Counters = Counters(active: nat, bySubscription: map<string, nat>, teamSeats: nat)

  // `done` are the users gone through, out of all with rows but without free access.
  ghost predicate Counting(rows: map<User, seq<Candidate>>, free: set<User>, done: set<User>, c: Counters) {
    && c.active == |free| + |done|
    && c.teamSeats == |Counted(rows, done, TeamSeat)|
    && Tallied(c.bySubscription, rows, done)
  }

  function CountUser(c: Counters, best: Candidate): Counters {
    if best.source.BySubscription?
    then Counters(c.active + 1, c.bySubscription[best.plan := Tally(c.bySubscription, best.plan) + 1], c.teamSeats)
    else Counters(c.active + 1, c.bySubscription, c.teamSeats + 1)
  }

  lemma CountingGoesOn(rows: map<User, seq<Candidate>>, free: set<User>, done: set<User>, c: Counters, user: User)
    requires Counting(rows, free, done, c) && user in rows && rows[user] != [] && user !in done
    ensures Counting(rows, free, done + {user}, CountUser(c, Best(rows[user])))
  {
    OneUserMore(rows, done, user, TeamSeat);
    TallyOneMore(c.bySubscription, rows, done, user);
  }

  // Counting each user once, whatever the order.
  method CountUsers(rows: map<User, seq<Candidate>>, free: set<User>) returns (c: Counters)
    requires forall u :: u in rows ==> rows[u] != []
    ensures Counting(rows, free, rows.Keys - free, c)
  {
    c := Counters(|free|, map[], 0);
    var all := rows.Keys - free;
    var open := all;
    ghost var done: set<User> := {};
    while open != {}
      invariant open == all - done && done <= all
      invariant Counting(rows, free, done, c)
      decreases |open|
    {
      var user :| user in open;
      OneFewerOpen(all, open, done, user);
      CountingGoesOn(rows, free, done, c, user);
      var best := Best(rows[user]);
      if best.source.BySubscription? {
        c := c.(bySubscription := c.bySubscription[best.plan := Tally(c.bySubscription, best.plan) + 1]);
      } else {
        c := c.(teamSeats := c.teamSeats + 1);
      }
      c := c.(active := c.active + 1);
      open, done := open - {user}, done + {user};
    }
    assert done == all;
  }

  /** How many users are active, and through what: the numbers of users for whom the rules say so. */
  method OverviewOf(db: Database, now: int) returns (o: Overview)
    requires ForeignKeys(db)
    ensures o.active == |ActiveUsers(db, now)|
    ensures o.freeAccess == |UsersOn(db, now, Free)| && o.teamSeats == |UsersOn(db, now, TeamSeat)|
    ensures forall plan :: Tally(o.bySubscription, plan) == |UsersOn(db, now, Plan(plan))|
    ensures forall plan :: plan in o.bySubscription <==> UsersOn(db, now, Plan(plan)) != {}
  {
    var free := set i | 0 <= i < |db.frees| && db.frees[i].revokedAt.None? :: db.frees[i].user;
    var rows := Group(db, now);
    RowsAreFilled(db, now, rows);
    var c := CountUsers(rows, free);
    FreeUsersAreRight(db, now, free);
    ActiveUsersAreRight(db, now, free, rows);
    CountedAreRight(db, now, free, rows, TeamSeat);
    forall plan
      ensures Tally(c.bySubscription, plan) == |UsersOn(db, now, Plan(plan))|
              && (plan in c.bySubscription ==> c.bySubscription[plan] > 0)
    {
      CountedAreRight(db, now, free, rows, Plan(plan));
      assert Tally(c.bySubscription, plan) == |Counted(rows, rows.Keys - free, Plan(plan))|;
    }
    o := Overview(c.active, c.bySubscription, c.teamSeats, |free|);
  }

  lemma RowsAreFilled(db: Database, now: int, rows: map<User, seq<Candidate>>)
    requires FitsTable(rows, db.subscriptions, db.seats, now)
    ensures forall u ::
              (u in rows <==> Candidates(db, u, now) != []) && (u in rows ==> rows[u] == Candidates(db, u, now))
  {
    forall u
      ensures (u in rows <==> Candidates(db, u, now) != []) && (u in rows ==> rows[u] == Candidates(db, u, now))
    {
      assert FitsUser(rows, u, Gather(db.subscriptions, OffersTo(u, now)) + Gather(db.seats, SeatOffersTo(u, now)));
    }
  }

  lemma FreeUsersAreRight(db: Database, now: int, free: set<User>)
    requires ForeignKeys(db) && free == set i | 0 <= i < |db.frees| && db.frees[i].revokedAt.None? :: db.frees[i].user
    ensures (forall u :: u in free <==> OpenFree(db.frees, u)) && free == UsersOn(db, now, Free) && free <= db.users
  {
    forall u ensures u in free <==> OpenFree(db.frees, u) {}
    forall u ensures BasisOfAccess(db, u, now) == Free <==> OpenFree(db.frees, u) { BasisMeaning(db, u, now); }
  }

  // The basis of access is free access, or else that of the best candidate.
  lemma BasisMeaning(db: Database, user: User, now: int)
    ensures var rows := Candidates(db, user, now);
            BasisOfAccess(db, user, now)
            == if OpenFree(db.frees, user) then Free else if rows == [] then Nothing else BasisOf(Best(rows))
  {
    var rows := Candidates(db, user, now);
    if rows != [] {
      BestIsFirstMaximum(rows);
      var i :| 0 <= i < |rows| && rows[i] == Best(rows);
      SourcesInOrder(db, user, now, i);
    }
  }

  lemma CandidatesBelongToUsers(db: Database, user: User, now: int)
    requires ForeignKeys(db) && Candidates(db, user, now) != []
    ensures user in db.users
  {
    CandidatesAre(db, user, now);
    assert Candidates(db, user, now)[0] in Candidates(db, user, now);
  }

  lemma ActiveUsersAreRight(db: Database, now: int, free: set<User>, rows: map<User, seq<Candidate>>)
    requires ForeignKeys(db) && (forall u :: u in free <==> OpenFree(db.frees, u)) && free <= db.users
    requires forall u :: u in rows <==> Candidates(db, u, now) != []
    ensures |free| + |rows.Keys - free| == |ActiveUsers(db, now)|
  {
    forall u | u in rows ensures u in db.users { CandidatesBelongToUsers(db, u, now); }
    assert ActiveUsers(db, now) == free + (rows.Keys - free);
  }

  lemma CountedAreRight(db: Database, now: int, free: set<User>, rows: map<User, seq<Candidate>>, basis: Basis)
    requires ForeignKeys(db) && (forall u :: u in free <==> OpenFree(db.frees, u)) && !basis.Free? && !basis.Nothing?
    requires forall u ::
               (u in rows <==> Candidates(db, u, now) != []) && (u in rows ==> rows[u] == Candidates(db, u, now))
    ensures Counted(rows, rows.Keys - free, basis) == UsersOn(db, now, basis)
  {
    forall u ensures u in Counted(rows, rows.Keys - free, basis) <==> u in UsersOn(db, now, basis) {
      BasisMeaning(db, u, now);
      if u in rows { CandidatesBelongToUsers(db, u, now); }
    }
  }
}
