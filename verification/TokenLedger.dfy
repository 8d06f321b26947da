/** The ledger operations as they update the table in place. */
module TokenLedger {
  import opened Options
  import opened Sums
  import opened LedgerEntries
  import opened DebitOrder
  import opened LedgerInvariants

  // Taking from the credits from the i-th on.
  function TakeAt(rows: seq<Entry>, ids: seq<nat>, i: nat, left: int): (r: seq<Entry>)
    requires InTable(rows, ids) && i <= |ids|
    ensures |r| == |rows|
    decreases |ids| - i
  {
    if i == |ids| || left == 0 then rows
    else
      var k := ids[i];
      var take := Min(left, rows[k].remaining);
      TakeAt(rows[k := rows[k].(remaining := rows[k].remaining - take)], ids, i + 1, left - take)
  }

  lemma {:induction false} TakeAtIsTake(rows: seq<Entry>, ids: seq<nat>, i: nat, rest: seq<nat>, left: int)
    requires InTable(rows, ids) && InTable(rows, rest) && i <= |ids| && rest == ids[i..]
    ensures TakeAt(rows, ids, i, left) == Take(rows, rest, left)
    decreases |rest|
  {
    if i < |ids| && left != 0 {
      var k := ids[i];
      assert rest[0] == k;
      var take := Min(left, rows[k].remaining);
      TakeAtIsTake(rows[k := rows[k].(remaining := rows[k].remaining - take)], ids, i + 1, rest[1..], left - take);
    }
  }

  class Ledger {
    var rows: seq<Entry>

    ghost predicate Valid()
      reads this
    {
      Inv(rows)
    }

    constructor ()
      ensures Valid() && rows == []
    {
      rows := [];
    }

    method Create(e: Entry) returns (pk: nat)
      modifies this
      ensures rows == old(rows) + [e] && pk == |old(rows)|
    {
      pk := |rows|;
      rows := rows + [e];
    }

    method GrantTokens(account: nat, amount: int, expires: Option<int>, ref: Ref, now: int) returns (r: Outcome)
      requires Valid()
      modifies this
      ensures Valid()
      ensures Update(rows, r) == LedgerEntries.GrantTokens(old(rows), account, amount, expires, ref, now)
    {
      StepKeepsInv(rows, OpGrant(account, amount, expires, ref), now);
      if amount <= 0 { return Rejected(AmountNotPositive); }
      if !ref.NoRef? {
        var existing := Find(rows, account, Grant, ref);
        if existing.Some? { return Done(existing.value); }
      }
      var pk := Create(Entry(account, Grant, amount, amount, expires, now, ref));
      return Done(pk);
    }

    method CreditPurchase(account: nat, amount: int, ref: Ref, now: int) returns (r: Outcome)
      requires Valid()
      modifies this
      ensures Valid()
      ensures Update(rows, r) == LedgerEntries.CreditPurchase(old(rows), account, amount, ref, now)
    {
      StepKeepsInv(rows, OpPurchase(account, amount, ref), now);
      if amount <= 0 { return Rejected(AmountNotPositive); }
      if ref.NoRef? { return Rejected(ReferenceRequired); }
      var existing := Find(rows, account, Bought, ref);
      if existing.Some? { return Done(existing.value); }
      var pk := Create(Entry(account, Bought, amount, amount, None, now, ref));
      return Done(pk);
    }

    /** The debit loop: each visited credit gives what it can until nothing is left to take. */
    method Spend(credits: seq<nat>, amount: int)
      requires InTable(rows, credits)
      modifies this
      ensures rows == Take(old(rows), credits, amount)
    {
      ghost var result := TakeAt(rows, credits, 0, amount);
      TakeAtIsTake(rows, credits, 0, credits, amount);
      var left, i := amount, 0;
      while i < |credits| && left != 0
        invariant 0 <= i <= |credits|
        invariant InTable(rows, credits) && TakeAt(rows, credits, i, left) == result
      {
        var k := credits[i];
        var take := Min(left, rows[k].remaining);
        rows := rows[k := rows[k].(remaining := rows[k].remaining - take)];
        left := left - take;
        i := i + 1;
      }
    }

    method DebitTokens(account: nat, amount: int, ref: Ref, now: int) returns (r: Outcome)
      requires Valid()
      modifies this
      ensures Valid()
      ensures Update(rows, r) == LedgerEntries.DebitTokens(old(rows), account, amount, ref, now)
    {
      DebitKeepsInv(rows, account, amount, ref, now);
      SoundIsNonNegative(rows);
      if amount <= 0 { return Rejected(AmountNotPositive); }
      if ref.NoRef? { return Rejected(ReferenceRequired); }
      var existing := Find(rows, account, Debit, ref);
      if existing.Some? {
        if rows[existing.value].amount != -amount { return Rejected(DebitReferenceReused); }
        return Done(existing.value);
      }
      var credits := Credits(rows, account, now);
      CreditsAreTheBalance(rows, account, now);
      if Sum(credits, AtFn(rows, TailFn(account, now))) < amount { return Rejected(InsufficientTokens); }
      Spend(credits, amount);
      var pk := Create(Entry(account, Debit, -amount, 0, None, now, ref));
      return Done(pk);
    }

    method ReverseDebit(account: nat, ref: Ref, reasonGiven: bool, now: int) returns (r: Outcome)
      requires Valid()
      modifies this
      ensures Valid()
      ensures Update(rows, r) == LedgerEntries.ReverseDebit(old(rows), account, ref, reasonGiven, now)
    {
      StepKeepsInv(rows, OpReverse(account, ref, reasonGiven), now);
      if !reasonGiven { return Rejected(ReasonRequired); }
      var debit := Find(rows, account, Debit, ref);
      if debit.None? { return Rejected(UnknownDebit); }
      var amount := rows[debit.value].amount;
      if amount < 0 { amount := -amount; }
      var existing := Find(rows, account, Adjustment, ReversalOf(ref));
      if existing.Some? { return Done(existing.value); }
      var pk := Create(Entry(account, Adjustment, amount, amount, None, now, ReversalOf(ref)));
      return Done(pk);
    }

    /** Every grant past its end is zeroed, and each gets its own new expiry entry. */
    method ExpireTokens(now: int) returns (count: nat)
      requires Valid()
      modifies this
      ensures Valid()
      ensures rows == LedgerEntries.ExpireTokens(old(rows), now)
      ensures |rows| == |old(rows)| + count
    {
      count := 0;
      ExpireKeepsInv(rows, now, 0, |rows|);
      var n, k := |rows|, 0;
      while k < n
        invariant 0 <= k <= n <= |rows| && Inv(rows)
        invariant ExpireFrom(rows, now, k, n) == LedgerEntries.ExpireTokens(old(rows), now)
        invariant |rows| == |old(rows)| + count
      {
        if Due(rows[k], now) {
          ghost var closed := Close(rows, k, ExpiryOf(k), now);
          CloseKeepsInv(rows, k, ExpiryOf(k), now);
          var amount, account := rows[k].remaining, rows[k].account;
          rows := rows[k := rows[k].(remaining := 0)];
          rows := rows + [Entry(account, Expiry, -amount, 0, None, now, ExpiryOf(k))];
          assert rows == closed;
          count := count + 1;
        }
        k := k + 1;
      }
    }

    /** A withdrawal takes back what its grants still hold. */
    method ZeroForWithdrawal(w: Withdrawal, now: int)
      requires Valid()
      modifies this
      ensures Valid()
      ensures rows == LedgerEntries.ZeroForWithdrawal(old(rows), w, now)
    {
      WithdrawKeepsInv(rows, w, now, 0, |rows|);
      var n, k := |rows|, 0;
      while k < n
        invariant 0 <= k <= n <= |rows| && Inv(rows)
        invariant WithdrawFrom(rows, w, now, k, n) == LedgerEntries.ZeroForWithdrawal(old(rows), w, now)
      {
        if Covered(rows[k], w) && rows[k].remaining > 0 {
          ghost var closed := Close(rows, k, WithdrawalOf(w.name, k), now);
          CloseKeepsInv(rows, k, WithdrawalOf(w.name, k), now);
          var amount, account := rows[k].remaining, rows[k].account;
          rows := rows[k := rows[k].(remaining := 0)];
          rows := rows + [Entry(account, Expiry, -amount, 0, None, now, WithdrawalOf(w.name, k))];
          assert rows == closed;
        }
        k := k + 1;
      }
    }
  }
}
