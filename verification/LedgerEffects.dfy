/** What each ledger operation does to what an account can spend, now and at every later moment. */
module LedgerEffects {
  import opened Options
  import opened Sums
  import opened LedgerEntries
  import opened LedgerInvariants
  import opened DebitOptimality

  ghost predicate IsThere(rows: seq<Entry>, account: nat, kind: Kind, ref: Ref) {
    exists i :: 0 <= i < |rows| && rows[i].account == account && rows[i].kind == kind && rows[i].ref == ref
  }

  lemma FindsWhatIsThere(rows: seq<Entry>, account: nat, kind: Kind, ref: Ref)
    ensures Find(rows, account, kind, ref).Some? <==> IsThere(rows, account, kind, ref)
    ensures Find(rows, account, kind, ref).Some? ==>
              var e := rows[Find(rows, account, kind, ref).value];
              e.account == account && e.kind == kind && e.ref == ref
  {
    if i :| 0 <= i < |rows| && rows[i].account == account && rows[i].kind == kind && rows[i].ref == ref {
      assert Matches(rows[i], account, kind, ref);
    }
  }

  // ----- Credits -----

  /** The outcome of crediting under a reference that may be there already: the entry that is there, or exactly one new
      entry at the end. */
  ghost predicate Credited(rows: seq<Entry>, u: Update, account: nat, kind: Kind, ref: Ref) {
    && u.outcome.Done? && u.outcome.pk < |u.rows|
    && var e := u.rows[u.outcome.pk];
       && e.account == account && e.kind == kind && e.ref == ref
       && if !ref.NoRef? && IsThere(rows, account, kind, ref) then u.rows == rows
          else u.outcome.pk == |rows| && u.rows == rows + [e]
  }

  // A new entry holds all it was given for.
  ghost predicate Holds(e: Entry, amount: int, expires: Option<int>, now: int) {
    e.amount == e.remaining == amount && e.expires == expires && e.created == now
  }

  /** What an account can spend at time t grows by the amount exactly if the grant is new and lasts beyond t. */
  lemma GrantLastsUntilItExpires(rows: seq<Entry>, account: nat, amount: int, expires: Option<int>, ref: Ref, now: int,
                                 other: nat, t: int)
    ensures var u := GrantTokens(rows, account, amount, expires, ref, now);
            var added := 0 < amount && (ref == NoRef || !IsThere(rows, account, Grant, ref));
            && (amount <= 0 ==> u == Update(rows, Rejected(AmountNotPositive)))
            && (0 < amount ==> Credited(rows, u, account, Grant, ref))
            && (added ==> Holds(u.rows[|rows|], amount, expires, now))
            && Balance(u.rows, other, t) == Balance(rows, other, t)
                 + if added && other == account && (expires == None || t < expires.value) then amount else 0
  {
    FindsWhatIsThere(rows, account, Grant, ref);
    var u := GrantTokens(rows, account, amount, expires, ref, now);
    if |u.rows| > |rows| { SumAppend(rows, u.rows[|rows|], TailFn(other, t)); }
  }

  /** Purchased tokens never expire, and need a reference. */
  lemma PurchaseNeverExpires(rows: seq<Entry>, account: nat, amount: int, ref: Ref, now: int, other: nat, t: int)
    ensures var u := CreditPurchase(rows, account, amount, ref, now);
            var added := 0 < amount && ref != NoRef && !IsThere(rows, account, Bought, ref);
            && (amount <= 0 ==> u == Update(rows, Rejected(AmountNotPositive)))
            && (0 < amount && ref == NoRef ==> u == Update(rows, Rejected(ReferenceRequired)))
            && (0 < amount && ref != NoRef ==> Credited(rows, u, account, Bought, ref))
            && (added ==> Holds(u.rows[|rows|], amount, None, now))
            && Balance(u.rows, other, t) == Balance(rows, other, t) + if added && other == account then amount else 0
  {
    FindsWhatIsThere(rows, account, Bought, ref);
    var u := CreditPurchase(rows, account, amount, ref, now);
    if |u.rows| > |rows| { SumAppend(rows, u.rows[|rows|], TailFn(other, t)); }
  }

  // ----- Debits -----

  /** A debit succeeds if the balance covers it, once per reference; repeating it asks for the same amount. */
  lemma DebitOutcome(rows: seq<Entry>, account: nat, amount: int, ref: Ref, now: int)
    ensures var u, there := DebitTokens(rows, account, amount, ref, now), IsThere(rows, account, Debit, ref);
            && (u.outcome == Rejected(AmountNotPositive) <==> amount <= 0)
            && (u.outcome == Rejected(ReferenceRequired) <==> 0 < amount && ref == NoRef)
            && (u.outcome == Rejected(InsufficientTokens)
                <==> 0 < amount && ref != NoRef && !there && Balance(rows, account, now) < amount)
            && (u.outcome.Rejected? || there ==> u.rows == rows)
            && (0 < amount && ref != NoRef && there ==>
                  exists i :: 0 <= i < |rows| && rows[i].account == account && rows[i].kind == Debit
                    && rows[i].ref == ref
                    && u.outcome == if rows[i].amount == -amount then Done(i) else Rejected(DebitReferenceReused))
            && (0 < amount <= Balance(rows, account, now) && ref != NoRef && !there ==>
                  u.outcome == Done(|rows|) && |u.rows| == |rows| + 1
                  && u.rows[|rows|] == Entry(account, Debit, -amount, 0, None, now, ref))
  {
    FindsWhatIsThere(rows, account, Debit, ref);
  }

  /** What a successful debit takes from what can be spent at any later moment: from the rest of the balance first, from
      this only what is missing; and nothing from any other account. */
  lemma DebitTakesTheEarliest(rows: seq<Entry>, account: nat, amount: int, ref: Ref, now: int, other: nat, t: int)
    requires Inv(rows) && now <= t && 0 < amount <= Balance(rows, account, now) && ref != NoRef
    requires !IsThere(rows, account, Debit, ref)
    ensures Balance(DebitTokens(rows, account, amount, ref, now).rows, other, t)
            == if other == account then Min(Balance(rows, account, t), Balance(rows, account, now) - amount)
               else Balance(rows, other, t)
  {
    FindsWhatIsThere(rows, account, Debit, ref);
    if other == account {
      DebitTail(rows, account, amount, ref, now, t);
    } else {
      var taken := Take(rows, Credits(rows, account, now), amount);
      SumPointwise(rows, taken, TailFn(other, t));
      SumAppend(taken, Entry(account, Debit, -amount, 0, None, now, ref), TailFn(other, t));
    }
  }

  /** A reversal gives back what the debit took, for good, and once. */
  lemma ReversalGivesBack(rows: seq<Entry>, account: nat, ref: Ref, reason: bool, now: int, pk: nat, other: nat, t: int)
    requires Inv(rows) && ref != NoRef && pk < |rows|
    requires rows[pk].account == account && rows[pk].kind == Debit && rows[pk].ref == ref
    ensures var u := ReverseDebit(rows, account, ref, reason, now);
            var added := reason && !IsThere(rows, account, Adjustment, ReversalOf(ref));
            && (!reason ==> u == Update(rows, Rejected(ReasonRequired)))
            && (reason ==> Credited(rows, u, account, Adjustment, ReversalOf(ref)))
            && (added ==> Holds(u.rows[|rows|], -rows[pk].amount, None, now))
            && Balance(u.rows, other, t)
               == Balance(rows, other, t) + if added && other == account then -rows[pk].amount else 0
  {
    var debit := Find(rows, account, Debit, ref);
    assert Matches(rows[pk], account, Debit, ref);
    assert debit == Some(pk) && SoundEntry(rows, pk);
    FindsWhatIsThere(rows, account, Adjustment, ReversalOf(ref));
    var u := ReverseDebit(rows, account, ref, reason, now);
    if |u.rows| > |rows| { SumAppend(rows, u.rows[|rows|], TailFn(other, t)); }
  }

  lemma ReversalNeedsADebit(rows: seq<Entry>, account: nat, ref: Ref, now: int)
    requires !IsThere(rows, account, Debit, ref)
    ensures ReverseDebit(rows, account, ref, true, now) == Update(rows, Rejected(UnknownDebit))
  {
    FindsWhatIsThere(rows, account, Debit, ref);
  }

  /** A debit and its reversal leave the balance as it was. */
  lemma ReversalUndoesTheDebit(rows: seq<Entry>, account: nat, amount: int, ref: Ref, now: int)
    requires Inv(rows) && 0 < amount <= Balance(rows, account, now) && ref != NoRef
    requires !IsThere(rows, account, Debit, ref) && !IsThere(rows, account, Adjustment, ReversalOf(ref))
    ensures var debited := DebitTokens(rows, account, amount, ref, now).rows;
            Balance(ReverseDebit(debited, account, ref, true, now).rows, account, now) == Balance(rows, account, now)
  {
    var debited := DebitTokens(rows, account, amount, ref, now).rows;
    DebitOutcome(rows, account, amount, ref, now);
    DebitTakesTheEarliest(rows, account, amount, ref, now, account, now);
    DebitKeepsInv(rows, account, amount, ref, now);
    NoSuchAdjustment(rows, debited, account, ref);
    ReversalGivesBack(debited, account, ref, true, now, |rows|, account, now);
  }

  lemma NoSuchAdjustment(rows: seq<Entry>, later: seq<Entry>, account: nat, ref: Ref)
    requires Extends(rows, later) && |later| == |rows| + 1 && later[|rows|].kind == Debit
    requires !IsThere(rows, account, Adjustment, ReversalOf(ref))
    ensures !IsThere(later, account, Adjustment, ReversalOf(ref))
  {
    forall i | 0 <= i < |later|
      ensures !(later[i].account == account && later[i].kind == Adjustment && later[i].ref == ReversalOf(ref))
    {
      assert i < |rows| ==> later[i].account == rows[i].account && later[i].ref == rows[i].ref;
    }
  }

  // ----- Closings -----

  // A grant past its end.
  ghost predicate IsOver(e: Entry, now: int) { e.kind == Grant && e.expires.Some? && e.expires.value <= now }

  lemma {:induction false} ExpiryClosesExactly(rows: seq<Entry>, now: int, k: nat, n: nat, i: nat)
    requires Inv(rows) && k <= n <= |rows| && i < |rows|
    ensures var after := ExpireFrom(rows, now, k, n);
            i < |after| && after[i] == if k <= i < n && IsOver(rows[i], now) then rows[i].(remaining := 0) else rows[i]
    decreases n - k
  {
    if k < n {
      var next := if Due(rows[k], now) then Close(rows, k, ExpiryOf(k), now) else rows;
      if Due(rows[k], now) { CloseKeepsInv(rows, k, ExpiryOf(k), now); }
      assert SoundEntry(rows, k);
      ExpiryClosesExactly(next, now, k + 1, n, i);
    }
  }

  /** After the sweep no grant past its end holds anything; every other entry is as it was, and nothing is lost of what
      anyone can spend from now on. */
  lemma SweepIsExact(rows: seq<Entry>, now: int, i: nat, account: nat, t: int)
    requires Inv(rows) && i < |rows| && now <= t
    ensures var after := ExpireTokens(rows, now);
            i < |after| && after[i] == if IsOver(rows[i], now) then rows[i].(remaining := 0) else rows[i]
    ensures Balance(ExpireTokens(rows, now), account, t) == Balance(rows, account, t)
  {
    ExpiryClosesExactly(rows, now, 0, |rows|, i);
    ExpiryKeepsTail(rows, now, 0, |rows|, account, t);
  }

  ghost predicate IsCovered(e: Entry, w: Withdrawal) {
    (e.kind == Grant || e.kind == Bought) && e.ref in w.refs && e.account in w.accounts
  }

  lemma {:induction false} WithdrawalClosesExactly(rows: seq<Entry>, w: Withdrawal, now: int, k: nat, n: nat, i: nat)
    requires Inv(rows) && k <= n <= |rows| && i < |rows|
    ensures var after := WithdrawFrom(rows, w, now, k, n);
            i < |after| && after[i] == if k <= i < n && IsCovered(rows[i], w) then rows[i].(remaining := 0) else rows[i]
    decreases n - k
  {
    if k < n {
      var closing := Covered(rows[k], w) && rows[k].remaining > 0;
      var next := if closing then Close(rows, k, WithdrawalOf(w.name, k), now) else rows;
      if closing { CloseKeepsInv(rows, k, WithdrawalOf(w.name, k), now); }
      assert SoundEntry(rows, k);
      WithdrawalClosesExactly(next, w, now, k + 1, n, i);
    }
  }

  /** A withdrawal empties exactly the grants and purchases under its references on its accounts. */
  lemma WithdrawalIsExact(rows: seq<Entry>, w: Withdrawal, now: int, i: nat)
    requires Inv(rows) && i < |rows|
    ensures var after := ZeroForWithdrawal(rows, w, now);
            i < |after| && after[i] == if IsCovered(rows[i], w) then rows[i].(remaining := 0) else rows[i]
  {
    WithdrawalClosesExactly(rows, w, now, 0, |rows|, i);
  }
}
