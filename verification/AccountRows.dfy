/** The operator's page of accounts: all rows fetched at once and split by user, then one line per user. */
module AccountRows {
  import opened Options
  import opened AccessRules

  // ----- The rows of one user -----

  function Chosen<R>(rows: seq<R>, mine: R -> bool): (chosen: seq<R>)
    ensures forall r :: r in chosen ==> mine(r)
  {
    if rows == [] then []
    else Chosen(rows[..|rows| - 1], mine) + if mine(rows[|rows| - 1]) then [rows[|rows| - 1]] else []
  }

  function SubscriptionOf(user: User): Subscription -> bool { (s: Subscription) => s.user == user }

  function SeatOf(user: User): Seat -> bool { (s: Seat) => s.user == user }

  function FreeOf(user: User): FreeAccess -> bool { (f: FreeAccess) => f.user == user }

  function Only(db: Database, user: User): Database {
    db.(subscriptions := Chosen(db.subscriptions, SubscriptionOf(user)), seats := Chosen(db.seats, SeatOf(user)),
        frees := Chosen(db.frees, FreeOf(user)))
  }

  // Rows that yield nothing can be left out.
  lemma {:induction false} ChosenSuffice<R, X>(rows: seq<R>, mine: R -> bool, f: R -> seq<X>)
    requires forall r :: !mine(r) ==> f(r) == []
    ensures Gather(Chosen(rows, mine), f) == Gather(rows, f)
  {
    if rows != [] {
      var front, last := rows[..|rows| - 1], rows[|rows| - 1];
      ChosenSuffice(front, mine, f);
      var before := Chosen(front, mine);
      if mine(last) {
        assert (before + [last])[..|before|] == before;
      } else {
        assert Chosen(rows, mine) == before;
      }
    }
  }

  lemma {:induction false} ChosenAreThere<R>(rows: seq<R>, mine: R -> bool, r: R)
    ensures r in Chosen(rows, mine) <==> r in rows && mine(r)
  {
    if rows != [] {
      ChosenAreThere(rows[..|rows| - 1], mine, r);
      assert rows == rows[..|rows| - 1] + [rows[|rows| - 1]];
    }
  }

  lemma OpenFreeIsOwn(rows: seq<FreeAccess>, user: User)
    ensures OpenFree(Chosen(rows, FreeOf(user)), user) <==> OpenFree(rows, user)
  {
    var chosen := Chosen(rows, FreeOf(user));
    if OpenFree(chosen, user) {
      var i :| 0 <= i < |chosen| && chosen[i].user == user && chosen[i].revokedAt.None?;
      ChosenAreThere(rows, FreeOf(user), chosen[i]);
      assert chosen[i] in rows;
    }
    if OpenFree(rows, user) {
      var i :| 0 <= i < |rows| && rows[i].user == user && rows[i].revokedAt.None?;
      ChosenAreThere(rows, FreeOf(user), rows[i]);
      assert rows[i] in chosen;
    }
  }

  // A user's access depends on the user's own rows only.
  lemma OwnRowsDecide(db: Database, user: User, now: int)
    ensures AccessOf(Only(db, user), user, now) == AccessOf(db, user, now)
    ensures Candidates(Only(db, user), user, now) == Candidates(db, user, now)
  {
    ChosenSuffice(db.subscriptions, SubscriptionOf(user), OffersTo(user, now));
    ChosenSuffice(db.subscriptions, SubscriptionOf(user), EndsFor(user, now));
    ChosenSuffice(db.seats, SeatOf(user), SeatOffersTo(user, now));
    ChosenSuffice(db.seats, SeatOf(user), SeatEndsFor(user, now));
    ChosenSuffice(db.frees, FreeOf(user), RevokedFor(user));
    OpenFreeIsOwn(db.frees, user);
  }

  // ----- The page -----

  datatype Row = Row(user: User, access: Access, plan: Option<string>, term: Option<int>, balance: int)

  /** The line the single-user rules give: the plan and its term only where access rests on a subscription or a seat. */
  ghost function RowOf(db: Database, user: User, now: int): Row {
    var rows := Candidates(db, user, now);
    if OpenFree(db.frees, user) || rows == []
    then Row(user, AccessOf(db, user, now), None, None, BalanceOf(db.credits, user, now))
    else
      Row(user, AccessOf(db, user, now), Some(Best(rows).plan), Some(Best(rows).end), BalanceOf(db.credits, user, now))
  }

  // A dictionary that gives a default for missing keys.
  function Of<T>(rows: map<User, seq<T>>, user: User): seq<T> { if user in rows then rows[user] else [] }

  // One list per user out of all rows; `owner` reads a row's user, `pick` chooses the rows of one.
  method Split<R>(all: seq<R>, owner: R -> User, pick: User -> R -> bool, ids: seq<User>)
    returns (rows: map<User, seq<R>>)
    requires forall u, r :: pick(u)(r) <==> owner(r) == u
    ensures forall u :: u in ids ==> Of(rows, u) == Chosen(all, pick(u))
  {
    rows := map[];
    for i := 0 to |all|
      invariant forall u :: u in ids ==> Of(rows, u) == Chosen(all[..i], pick(u))
    {
      var x := all[i];
      assert all[..i + 1][..i] == all[..i];
      if owner(x) in ids { rows := rows[owner(x) := Of(rows, owner(x)) + [x]]; }
    }
    assert all[..|all|] == all;
  }

  function Amount(balances: map<User, int>, user: User): int { if user in balances then balances[user] else 0 }

  method Balances(all: seq<Credit>, ids: seq<User>, now: int) returns (balances: map<User, int>)
    ensures forall u :: u in ids ==> Amount(balances, u) == BalanceOf(all, u, now)
  {
    balances := map[];
    for i := 0 to |all|
      invariant forall u :: u in ids ==> Amount(balances, u) == BalanceOf(all[..i], u, now)
    {
      var c := all[i];
      assert all[..i + 1][..i] == all[..i];
      if c.user in ids && Counts(c, now) { balances := balances[c.user := Amount(balances, c.user) + c.remaining]; }
    }
    assert all[..|all|] == all;
  }

  // What the user's own subscriptions offer, and where those that offer nothing ended.
  method OwnSubscriptions(rows: seq<Subscription>, user: User, now: int)
    returns (candidates: seq<Candidate>, ends: seq<int>)
    requires forall s :: s in rows ==> s.user == user
    ensures candidates == Gather(rows, OffersTo(user, now)) && ends == Gather(rows, EndsFor(user, now))
  {
    candidates, ends := [], [];
    for i := 0 to |rows|
      invariant candidates == Gather(rows[..i], OffersTo(user, now))
      invariant ends == Gather(rows[..i], EndsFor(user, now))
    {
      var x := rows[i];
      assert rows[..i + 1][..i] == rows[..i];
      if x.periodEnd.Some? && Paying(x.status) && x.periodEnd.value > now {
        candidates := candidates + [Candidate(x.periodEnd.value, BySubscription, x.plan)];
      } else if x.endedAt.Some? {
        ends := ends + [x.endedAt.value];
      } else if x.periodEnd.Some? && x.periodEnd.value <= now && !x.status.Other? {
        ends := ends + [x.periodEnd.value];
      }
    }
    assert rows[..|rows|] == rows;
  }

  method OwnSeats(rows: seq<Seat>, user: User, now: int) returns (candidates: seq<Candidate>, ends: seq<int>)
    requires forall s :: s in rows ==> s.user == user
    ensures candidates == Gather(rows, SeatOffersTo(user, now)) && ends == Gather(rows, SeatEndsFor(user, now))
  {
    candidates, ends := [], [];
    for i := 0 to |rows|
      invariant candidates == Gather(rows[..i], SeatOffersTo(user, now))
      invariant ends == Gather(rows[..i], SeatEndsFor(user, now))
    {
      var x := rows[i];
      assert rows[..i + 1][..i] == rows[..i];
      if x.active && x.package.startsAt <= now < x.package.endsAt {
        candidates := candidates + [Candidate(x.package.endsAt, ByTeam, x.package.plan)];
      } else if !x.active && x.removedAt.Some? {
        ends := ends + [x.removedAt.value];
      } else if x.active && x.package.endsAt <= now {
        ends := ends + [x.package.endsAt];
      } else if !x.active {
        ends := ends + [if x.package.endsAt <= now then x.package.endsAt else now];
      }
    }
    assert rows[..|rows|] == rows;
  }

  // The line's access, plan and term from the user's own rows.
  method FromOwnRows(own: Database, user: User, now: int)
    returns (access: Access, plan: Option<string>, term: Option<int>)
    requires (forall s :: s in own.subscriptions ==> s.user == user) && (forall s :: s in own.seats ==> s.user == user)
    requires forall f :: f in own.frees ==> f.user == user
    ensures Row(user, access, plan, term, BalanceOf(own.credits, user, now)) == RowOf(own, user, now)
  {
    var candidates, ends := OwnSubscriptions(own.subscriptions, user, now);
    var team, teamEnds := OwnSeats(own.seats, user, now);
    candidates, ends := candidates + team, ends + teamEnds;
    var openFree := exists i :: 0 <= i < |own.frees| && own.frees[i].revokedAt.None?;
    assert openFree <==> OpenFree(own.frees, user);
    var revoked := Latest(Gather(own.frees, RevokedFor(user)));
    if revoked.Some? { ends := ends + [revoked.value]; }
    assert ends == AllEnds(own, user, now);
    if openFree { return Active(ByFreeAccess, None), None, None; }
    if candidates != [] {
      var best := Best(candidates);
      return Active(best.source, Some(best.end)), Some(best.plan), Some(best.end);
    }
    return ReadOnly(Latest(ends)), None, None;
  }

  /** The page shows for each user exactly what the single-user rules say. */
  method AccountsOf(db: Database, ids: seq<User>, now: int) returns (page: seq<Row>)
    ensures |page| == |ids| && forall i :: 0 <= i < |ids| ==> page[i] == RowOf(db, ids[i], now)
  {
    var subscriptions := Split(db.subscriptions, (s: Subscription) => s.user, SubscriptionOf, ids);
    var seats := Split(db.seats, (s: Seat) => s.user, SeatOf, ids);
    var frees := Split(db.frees, (f: FreeAccess) => f.user, FreeOf, ids);
    var balances := Balances(db.credits, ids, now);
    page := [];
    for i := 0 to |ids|
      invariant |page| == i && forall j :: 0 <= j < i ==> page[j] == RowOf(db, ids[j], now)
    {
      var user := ids[i];
      var own := db.(subscriptions := Of(subscriptions, user), seats := Of(seats, user), frees := Of(frees, user));
      assert own == Only(db, user);
      var access, plan, term := FromOwnRows(own, user, now);
      OwnRowsDecide(db, user, now);
      OpenFreeIsOwn(db.frees, user);
      page := page + [Row(user, access, plan, term, Amount(balances, user))];
    }
  }
}
