/** What the debit loop leaves: the credits it visits are exactly the spendable ones in order of expiry, and after it
    the credit outliving any later moment is as large as any way of spending could leave it. */
module DebitOrder {
  import opened Sums
  import opened LedgerEntries

  // ----- The visiting order -----

  predicate Comes(rows: seq<Entry>, i: nat, j: nat)
    requires i < |rows| && j < |rows|
  {
    KeyLe(rows[i], rows[j]) && (KeyLe(rows[j], rows[i]) ==> i < j)
  }

  ghost predicate InOrder(rows: seq<Entry>, ids: seq<nat>)
    requires InTable(rows, ids)
  {
    forall x, y :: 0 <= x < y < |ids| ==> Comes(rows, ids[x], ids[y])
  }

  lemma {:induction false} InsertKeepsOrder(rows: seq<Entry>, ids: seq<nat>, n: nat)
    requires n < |rows| && InTable(rows, ids) && InOrder(rows, ids)
    requires forall x :: 0 <= x < |ids| ==> ids[x] < n
    ensures InOrder(rows, Insert(rows, ids, n))
  {
    if ids != [] {
      var last := |ids| - 1;
      if !KeyLe(rows[ids[last]], rows[n]) {
        InsertKeepsOrder(rows, ids[..last], n);
        var r := Insert(rows, ids[..last], n);
        forall x | 0 <= x < |r| ensures Comes(rows, r[x], ids[last]) {
          assert r[x] in r;
        }
      }
    }
  }

  lemma {:induction false} InsertedInOrder(rows: seq<Entry>, account: nat, now: int, n: nat)
    requires n <= |rows|
    ensures InOrder(rows, CreditsUpTo(rows, account, now, n))
  {
    if n > 0 {
      InsertedInOrder(rows, account, now, n - 1);
      CreditsAreBelow(rows, account, now, n - 1);
      OneCreditMore(rows, account, now, n);
      NextInOrder(rows, CreditsUpTo(rows, account, now, n - 1), n - 1, CreditsUpTo(rows, account, now, n));
    }
  }

  // One entry more, if it is spendable.
  lemma NextInOrder(rows: seq<Entry>, ids: seq<nat>, n: nat, all: seq<nat>)
    requires n < |rows| && InTable(rows, ids) && InOrder(rows, ids) && forall x :: 0 <= x < |ids| ==> ids[x] < n
    requires all == ids || all == Insert(rows, ids, n)
    ensures InTable(rows, all) && InOrder(rows, all)
  {
    InsertKeepsOrder(rows, ids, n);
  }

  lemma CreditsAreBelow(rows: seq<Entry>, account: nat, now: int, n: nat)
    requires n <= |rows|
    ensures forall x :: 0 <= x < |CreditsUpTo(rows, account, now, n)| ==> CreditsUpTo(rows, account, now, n)[x] < n
  {
    var ids := CreditsUpTo(rows, account, now, n);
    forall x | 0 <= x < |ids| ensures ids[x] < n { assert ids[x] in ids; }
  }

  lemma OneCreditMore(rows: seq<Entry>, account: nat, now: int, n: nat)
    requires 0 < n <= |rows|
    ensures var ids := CreditsUpTo(rows, account, now, n - 1);
            CreditsUpTo(rows, account, now, n)
            == if Spendable(rows[n - 1], account, now) then Insert(rows, ids, n - 1) else ids
  {
  }

  /** The debit loop visits each spendable credit of the account once: earliest expiry first, then never-expiring ones,
      by creation time and then by primary key within equal expiry. */
  lemma CreditsInOrder(rows: seq<Entry>, account: nat, now: int, n: nat)
    requires n <= |rows|
    ensures InOrder(rows, CreditsUpTo(rows, account, now, n))
    ensures var ids := CreditsUpTo(rows, account, now, n);
            forall x, y :: 0 <= x < y < |ids| ==> ids[x] != ids[y]
  {
    InsertedInOrder(rows, account, now, n);
    OrderedAreDistinct(rows, CreditsUpTo(rows, account, now, n));
  }

  lemma OrderedAreDistinct(rows: seq<Entry>, ids: seq<nat>)
    requires InTable(rows, ids) && InOrder(rows, ids)
    ensures forall x, y :: 0 <= x < y < |ids| ==> ids[x] != ids[y]
  {
    forall x, y | 0 <= x < y < |ids| ensures ids[x] != ids[y] { assert Comes(rows, ids[x], ids[y]); }
  }

  // ----- Sums along the order -----

  function AtFn(rows: seq<Entry>, f: Entry -> int): nat -> int {
    (i: nat) => if i < |rows| then f(rows[i]) else 0
  }

  lemma {:induction false} SumInsert(rows: seq<Entry>, ids: seq<nat>, n: nat, g: nat -> int)
    requires n < |rows| && InTable(rows, ids)
    ensures Sum(Insert(rows, ids, n), g) == Sum(ids, g) + g(n)
  {
    if ids == [] {
      SumAppend([], n, g);
      assert [] + [n] == [n];
    } else {
      var last := |ids| - 1;
      if KeyLe(rows[ids[last]], rows[n]) {
        SumAppend(ids, n, g);
      } else {
        SumInsert(rows, ids[..last], n, g);
        SumAppend(Insert(rows, ids[..last], n), ids[last], g);
      }
    }
  }

  lemma SumOneCreditMore(rows: seq<Entry>, account: nat, now: int, n: nat, g: nat -> int)
    requires 0 < n <= |rows|
    ensures Sum(CreditsUpTo(rows, account, now, n), g)
            == Sum(CreditsUpTo(rows, account, now, n - 1), g)
               + if Spendable(rows[n - 1], account, now) then g(n - 1) else 0
  {
    if Spendable(rows[n - 1], account, now) { SumInsert(rows, CreditsUpTo(rows, account, now, n - 1), n - 1, g); }
  }

  lemma SumOneEntryMore(rows: seq<Entry>, n: nat, f: Entry -> int)
    requires 0 < n <= |rows|
    ensures Sum(rows[..n], f) == Sum(rows[..n - 1], f) + f(rows[n - 1])
  {
    SumAppend(rows[..n - 1], rows[n - 1], f);
    assert rows[..n] == rows[..n - 1] + [rows[n - 1]];
  }

  /** Summing over the visited entries is summing over the table, for whatever only they contribute to. */
  lemma {:induction false} SumOverCredits(rows: seq<Entry>, later: seq<Entry>, account: nat, now: int, n: nat,
                                          f: Entry -> int)
    requires n <= |rows| == |later|
    requires forall i :: 0 <= i < n && !Spendable(rows[i], account, now) ==> f(later[i]) == 0
    ensures Sum(CreditsUpTo(rows, account, now, n), AtFn(later, f)) == Sum(later[..n], f)
  {
    if n > 0 {
      SumOverCredits(rows, later, account, now, n - 1, f);
      SumOneCreditMore(rows, account, now, n, AtFn(later, f));
      SumOneEntryMore(later, n, f);
    }
  }

  // ----- Greedy spending -----

  ghost predicate NonNegative(rows: seq<Entry>) { forall i :: 0 <= i < |rows| ==> 0 <= rows[i].remaining }

  ghost predicate Usable(rows: seq<Entry>, ids: seq<nat>, account: nat, now: int) {
    && InTable(rows, ids) && InOrder(rows, ids) && NonNegative(rows)
    && (forall x :: 0 <= x < |ids| ==>
          rows[ids[x]].account == account && IsCredit(rows[ids[x]].kind) && Outlives(rows[ids[x]], now))
  }

  lemma HeadIsNotInRest(rows: seq<Entry>, ids: seq<nat>)
    requires InTable(rows, ids) && InOrder(rows, ids) && ids != []
    ensures ids[0] !in ids[1..]
  {
    forall x | 0 < x < |ids| ensures ids[x] != ids[0] { assert Comes(rows, ids[0], ids[x]); }
  }

  function SpendFrom(rows: seq<Entry>, k: nat, take: int): seq<Entry>
    requires k < |rows|
  {
    rows[k := rows[k].(remaining := rows[k].remaining - take)]
  }

  // What the listed credits hold of what outlives t.
  function Late(rows: seq<Entry>, ids: seq<nat>, account: nat, t: int): int { Sum(ids, AtFn(rows, TailFn(account, t))) }

  lemma SpendHead(rows: seq<Entry>, ids: seq<nat>, take: int, account: nat, now: int)
    requires Usable(rows, ids, account, now) && ids != [] && 0 <= take <= rows[ids[0]].remaining
    ensures Usable(SpendFrom(rows, ids[0], take), ids[1..], account, now)
  {
    var rows1 := SpendFrom(rows, ids[0], take);
    forall x, y | 0 <= x < y < |ids[1..]| ensures Comes(rows1, ids[1..][x], ids[1..][y]) {
      assert Comes(rows, ids[x + 1], ids[y + 1]);
    }
    HeadIsNotInRest(rows, ids);
  }

  lemma SpendHeadLeavesRest(rows: seq<Entry>, ids: seq<nat>, take: int, account: nat, t: int)
    requires InTable(rows, ids) && InOrder(rows, ids) && ids != []
    ensures Late(SpendFrom(rows, ids[0], take), ids[1..], account, t) == Late(rows, ids[1..], account, t)
  {
    HeadIsNotInRest(rows, ids);
    SumSame(ids[1..], AtFn(SpendFrom(rows, ids[0], take), TailFn(account, t)), AtFn(rows, TailFn(account, t)));
  }

  /** How the head and the rest share the two sums: once the earliest credit outlives t, all of them do. */
  lemma HeadAndRest(rows: seq<Entry>, ids: seq<nat>, account: nat, now: int, t: int)
    requires Usable(rows, ids, account, now) && ids != [] && now <= t
    ensures Late(rows, ids, account, now) == rows[ids[0]].remaining + Late(rows, ids[1..], account, now)
    ensures Late(rows, ids, account, t)
            == (if Outlives(rows[ids[0]], t) then rows[ids[0]].remaining else 0) + Late(rows, ids[1..], account, t)
    ensures 0 <= Late(rows, ids[1..], account, t) <= Late(rows, ids[1..], account, now)
    ensures Outlives(rows[ids[0]], t) ==> Late(rows, ids[1..], account, t) == Late(rows, ids[1..], account, now)
  {
    var all, late, rest := AtFn(rows, TailFn(account, now)), AtFn(rows, TailFn(account, t)), ids[1..];
    SumHead(ids, all);
    SumHead(ids, late);
    SumLe(rest, late, all);
    SumPrefix(rest, |rest|, late);
    if Outlives(rows[ids[0]], t) {
      forall i | i in rest ensures Outlives(rows[i], t) {
        var x :| 0 <= x < |rest| && rest[x] == i;
        assert Comes(rows, ids[0], ids[x + 1]);
      }
      SumSame(rest, late, all);
    }
  }

  // After the walk the head holds what it was not asked for.
  lemma TakeHead(rows: seq<Entry>, ids: seq<nat>, left: int, account: nat, t: int, take: int, after: seq<Entry>)
    requires InTable(rows, ids) && ids != [] && 0 < left && ids[0] !in ids[1..]
    requires rows[ids[0]].account == account && IsCredit(rows[ids[0]].kind)
    requires take == Min(left, rows[ids[0]].remaining)
    requires InTable(SpendFrom(rows, ids[0], take), ids[1..])
             && after == Take(SpendFrom(rows, ids[0], take), ids[1..], left - take)
    ensures after == Take(rows, ids, left)
    ensures Late(after, ids, account, t)
            == (if Outlives(rows[ids[0]], t) then rows[ids[0]].remaining - take else 0)
               + Late(after, ids[1..], account, t)
  {
    assert after[ids[0]] == SpendFrom(rows, ids[0], take)[ids[0]];
    SumHead(ids, AtFn(after, TailFn(account, t)));
  }

  // The induction step on plain numbers: r is the earliest credit, a and l the sums over the others.
  lemma GreedyArithmetic(outlives: bool, r: int, take: int, left: int, a: int, l: int)
    requires 0 <= l <= a && 0 <= r && take == Min(left, r) && 0 < left <= r + a
    requires outlives ==> l == a
    ensures 0 <= left - take <= a
    ensures (if outlives then r - take else 0) + Min(l, a - (left - take))
            == Min((if outlives then r else 0) + l, r + a - left)
  {
  }

  // The induction step, given what the rest of the walk does.
  lemma GreedyStep(rows: seq<Entry>, ids: seq<nat>, left: int, account: nat, now: int, t: int, take: int,
                   after: seq<Entry>)
    requires Usable(rows, ids, account, now) && ids != [] && now <= t && 0 < left <= Late(rows, ids, account, now)
    requires take == Min(left, rows[ids[0]].remaining)
    requires InTable(SpendFrom(rows, ids[0], take), ids[1..])
             && after == Take(SpendFrom(rows, ids[0], take), ids[1..], left - take)
    requires Late(after, ids[1..], account, t)
             == Min(Late(rows, ids[1..], account, t), Late(rows, ids[1..], account, now) - (left - take))
    ensures after == Take(rows, ids, left)
    ensures Late(after, ids, account, t) == Min(Late(rows, ids, account, t), Late(rows, ids, account, now) - left)
  {
    HeadAndRest(rows, ids, account, now, t);
    GreedyArithmetic(Outlives(rows[ids[0]], t), rows[ids[0]].remaining, take, left,
                     Late(rows, ids[1..], account, now), Late(rows, ids[1..], account, t));
    HeadIsNotInRest(rows, ids);
    TakeHead(rows, ids, left, account, t, take, after);
  }

  lemma {:induction false} TakeOnlyShrinks(rows: seq<Entry>, ids: seq<nat>, left: int)
    requires NonNegative(rows) && InTable(rows, ids) && 0 <= left
    ensures NonNegative(Take(rows, ids, left))
    ensures forall i :: 0 <= i < |rows| ==> Take(rows, ids, left)[i].remaining <= rows[i].remaining
    decreases |ids|
  {
    if ids != [] && left != 0 {
      var take := Min(left, rows[ids[0]].remaining);
      TakeOnlyShrinks(SpendFrom(rows, ids[0], take), ids[1..], left - take);
    }
  }

  lemma {:induction false} GreedyTail(rows: seq<Entry>, ids: seq<nat>, left: int, account: nat, now: int, t: int)
    requires Usable(rows, ids, account, now) && now <= t && 0 <= left <= Late(rows, ids, account, now)
    ensures Late(Take(rows, ids, left), ids, account, t)
            == Min(Late(rows, ids, account, t), Late(rows, ids, account, now) - left)
    decreases |ids|
  {
    if ids == [] {
    } else if left == 0 {
      HeadAndRest(rows, ids, account, now, t);
    } else {
      var take := Min(left, rows[ids[0]].remaining);
      var spent := SpendFrom(rows, ids[0], take);
      HeadAndRest(rows, ids, account, now, now);
      SpendHead(rows, ids, take, account, now);
      SpendHeadLeavesRest(rows, ids, take, account, t);
      SpendHeadLeavesRest(rows, ids, take, account, now);
      GreedyTail(spent, ids[1..], left - take, account, now, t);
      GreedyStep(rows, ids, left, account, now, t, take, Take(spent, ids[1..], left - take));
    }
  }

  /** The debit loop: for every moment t from now on, the credit that outlives t is what outlived it before, cut down
      only to what is left of the balance. */
  lemma DebitLeavesTheLatest(rows: seq<Entry>, account: nat, amount: int, now: int, t: int)
    requires NonNegative(rows) && now <= t && 0 <= amount <= Balance(rows, account, now)
    ensures Tail(Take(rows, Credits(rows, account, now), amount), account, t)
            == Min(Tail(rows, account, t), Balance(rows, account, now) - amount)
    ensures NonNegative(Take(rows, Credits(rows, account, now), amount))
  {
    var ids := Credits(rows, account, now);
    CreditsAreUsable(rows, account, now);
    CreditsCarryTheTail(rows, rows, account, now, t);
    CreditsCarryTheTail(rows, rows, account, now, now);
    GreedyTail(rows, ids, amount, account, now, t);
    TakeOnlyShrinks(rows, ids, amount);
    CreditsCarryTheTail(rows, Take(rows, ids, amount), account, now, t);
  }

  lemma CreditsAreUsable(rows: seq<Entry>, account: nat, now: int)
    requires NonNegative(rows)
    ensures Usable(rows, Credits(rows, account, now), account, now)
  {
    var ids := Credits(rows, account, now);
    CreditsInOrder(rows, account, now, |rows|);
    forall x | 0 <= x < |ids| ensures Spendable(rows[ids[x]], account, now) { assert ids[x] in ids; }
  }

  // Only the spendable credits contribute to what outlives a later moment, before and after some of them were spent.
  lemma CreditsCarryTheTail(rows: seq<Entry>, later: seq<Entry>, account: nat, now: int, t: int)
    requires NonNegative(rows) && now <= t && |later| == |rows|
    requires forall i :: 0 <= i < |rows| ==> later[i] == rows[i].(remaining := later[i].remaining)
    requires forall i :: 0 <= i < |rows| && i !in Credits(rows, account, now) ==> later[i] == rows[i]
    ensures Late(later, Credits(rows, account, now), account, t) == Tail(later, account, t)
  {
    forall i | 0 <= i < |rows| && !Spendable(rows[i], account, now) ensures TailFn(account, t)(later[i]) == 0 {
      assert i !in Credits(rows, account, now);
    }
    SumOverCredits(rows, later, account, now, |rows|, TailFn(account, t));
    assert later[..|rows|] == later;
  }

  /** What `debit_tokens` adds up before it debits is the account's balance. */
  lemma CreditsAreTheBalance(rows: seq<Entry>, account: nat, now: int)
    requires NonNegative(rows)
    ensures Sum(Credits(rows, account, now), AtFn(rows, TailFn(account, now))) == Balance(rows, account, now)
  {
    SumOverCredits(rows, rows, account, now, |rows|, TailFn(account, now));
    assert rows[..|rows|] == rows;
  }
}
