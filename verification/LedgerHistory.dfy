/** Where every token of a credit went: still there, taken by debits, expired, or withdrawn. */
module LedgerHistory {
  import opened Options
  import opened Sums
  import opened LedgerEntries
  import opened LedgerInvariants

  // What expiry entries record against credit k.
  function ExpiredFn(k: nat): Entry -> int {
    (e: Entry) => if e.kind.Expiry? && e.ref == ExpiryOf(k) then -e.amount else 0
  }

  function WithdrawnFn(k: nat): Entry -> int {
    (e: Entry) => if e.kind.Expiry? && e.ref.WithdrawalOf? && e.ref.pk == k then -e.amount else 0
  }

  function Expired(rows: seq<Entry>, k: nat): int { Sum(rows, ExpiredFn(k)) }

  function Withdrawn(rows: seq<Entry>, k: nat): int { Sum(rows, WithdrawnFn(k)) }

  // Tokens one operation's debit loop took from entry k.
  function TakenBy(rows: seq<Entry>, op: Op, now: int, k: nat): int {
    var after := Run1(rows, op, now);
    if op.OpDebit? && k < |rows| && k < |after| then rows[k].remaining - after[k].remaining else 0
  }

  function TakenOver(rows: seq<Entry>, ops: seq<(Op, int)>, k: nat): int
    decreases |ops|
  {
    if ops == [] then 0
    else TakenBy(rows, ops[0].0, ops[0].1, k) + TakenOver(Run1(rows, ops[0].0, ops[0].1), ops[1..], k)
  }

  // What credit k has lost beyond what the table records as expired or withdrawn.
  function Spent(rows: seq<Entry>, k: nat): int {
    if k < |rows| && IsCredit(rows[k].kind)
    then rows[k].amount - rows[k].remaining - Expired(rows, k) - Withdrawn(rows, k)
    else 0
  }

  // ----- One operation -----

  lemma NothingNamesTheFuture(rows: seq<Entry>, k: nat)
    requires Inv(rows) && |rows| <= k
    ensures Expired(rows, k) == 0 && Withdrawn(rows, k) == 0
  {
    forall e | e in rows ensures ExpiredFn(k)(e) == 0 && WithdrawnFn(k)(e) == 0 {
      var i :| 0 <= i < |rows| && rows[i] == e;
      assert SoundEntry(rows, i);
    }
    SumZero(rows, ExpiredFn(k));
    SumZero(rows, WithdrawnFn(k));
  }

  lemma NewCreditIsUnspent(rows: seq<Entry>, e: Entry, k: nat)
    requires Inv(rows) && IsCredit(e.kind) && e.amount == e.remaining
    ensures Spent(rows + [e], k) == Spent(rows, k)
  {
    SumAppend(rows, e, ExpiredFn(k));
    SumAppend(rows, e, WithdrawnFn(k));
    if |rows| <= k { NothingNamesTheFuture(rows, k); }
  }

  lemma CloseSpendsNothing(rows: seq<Entry>, c: nat, ref: Ref, now: int, k: nat)
    requires Inv(rows) && c < |rows| && IsCredit(rows[c].kind) && rows[c].remaining > 0 && Names(ref, c)
    ensures Spent(Close(rows, c, ref, now), k) == Spent(rows, k)
  {
    CloseKeepsInv(rows, c, ref, now);
    var zeroed := rows[c := rows[c].(remaining := 0)];
    var e := Entry(rows[c].account, Expiry, -rows[c].remaining, 0, None, now, ref);
    SumUpdate(rows, c, zeroed[c], ExpiredFn(k));
    SumUpdate(rows, c, zeroed[c], WithdrawnFn(k));
    SumAppend(zeroed, e, ExpiredFn(k));
    SumAppend(zeroed, e, WithdrawnFn(k));
  }

  lemma {:induction false} ExpirySpendsNothing(rows: seq<Entry>, now: int, c: nat, n: nat, k: nat)
    requires Inv(rows) && c <= n <= |rows|
    ensures Spent(ExpireFrom(rows, now, c, n), k) == Spent(rows, k)
    decreases n - c
  {
    if c < n {
      var next := if Due(rows[c], now) then Close(rows, c, ExpiryOf(c), now) else rows;
      if Due(rows[c], now) {
        CloseKeepsInv(rows, c, ExpiryOf(c), now);
        CloseSpendsNothing(rows, c, ExpiryOf(c), now, k);
      }
      ExpirySpendsNothing(next, now, c + 1, n, k);
    }
  }

  lemma {:induction false} WithdrawalSpendsNothing(rows: seq<Entry>, w: Withdrawal, now: int, c: nat, n: nat, k: nat)
    requires Inv(rows) && c <= n <= |rows|
    ensures Spent(WithdrawFrom(rows, w, now, c, n), k) == Spent(rows, k)
    decreases n - c
  {
    if c < n {
      var closing := Covered(rows[c], w) && rows[c].remaining > 0;
      var next := if closing then Close(rows, c, WithdrawalOf(w.name, c), now) else rows;
      if closing {
        CloseKeepsInv(rows, c, WithdrawalOf(w.name, c), now);
        CloseSpendsNothing(rows, c, WithdrawalOf(w.name, c), now, k);
      }
      WithdrawalSpendsNothing(next, w, now, c + 1, n, k);
    }
  }

  // Changing what is left of entries, and appending a debit, records nothing as expired or withdrawn.
  lemma DebitRecordsNoClosing(rows: seq<Entry>, taken: seq<Entry>, e: Entry, k: nat)
    requires |taken| == |rows| && e.kind.Debit?
    requires forall i :: 0 <= i < |rows| ==> taken[i] == rows[i].(remaining := taken[i].remaining)
    ensures Expired(taken + [e], k) == Expired(rows, k) && Withdrawn(taken + [e], k) == Withdrawn(rows, k)
  {
    SumPointwise(rows, taken, ExpiredFn(k));
    SumPointwise(rows, taken, WithdrawnFn(k));
    SumAppend(taken, e, ExpiredFn(k));
    SumAppend(taken, e, WithdrawnFn(k));
  }

  lemma SpentAfterTaking(rows: seq<Entry>, taken: seq<Entry>, e: Entry, k: nat)
    requires |taken| == |rows| && e.kind.Debit?
    requires forall i :: 0 <= i < |rows| ==> taken[i] == rows[i].(remaining := taken[i].remaining)
    requires k < |rows| && !IsCredit(rows[k].kind) ==> taken[k] == rows[k]
    ensures Spent(taken + [e], k) == Spent(rows, k) + if k < |rows| then rows[k].remaining - taken[k].remaining else 0
  {
    DebitRecordsNoClosing(rows, taken, e, k);
  }

  lemma DebitSpendsWhatItTakes(rows: seq<Entry>, a: nat, amount: int, ref: Ref, now: int, k: nat)
    ensures Spent(DebitTokens(rows, a, amount, ref, now).rows, k)
            == Spent(rows, k) + TakenBy(rows, OpDebit(a, amount, ref), now, k)
  {
    var after := DebitTokens(rows, a, amount, ref, now).rows;
    if |after| != |rows| {
      var ids := Credits(rows, a, now);
      var taken, e := Take(rows, ids, amount), Entry(a, Debit, -amount, 0, None, now, ref);
      assert after == taken + [e];
      assert k < |rows| && !IsCredit(rows[k].kind) ==> k !in ids;
      SpentAfterTaking(rows, taken, e, k);
    }
  }

  lemma StepAccounts(rows: seq<Entry>, op: Op, now: int, k: nat)
    requires Inv(rows)
    ensures Spent(Run1(rows, op, now), k) == Spent(rows, k) + TakenBy(rows, op, now, k)
  {
    match op
    case OpGrant(a, amount, expires, ref) =>
      NewCreditIsUnspent(rows, Entry(a, Grant, amount, amount, expires, now, ref), k);
    case OpPurchase(a, amount, ref) =>
      NewCreditIsUnspent(rows, Entry(a, Bought, amount, amount, None, now, ref), k);
    case OpDebit(a, amount, ref) => DebitSpendsWhatItTakes(rows, a, amount, ref, now, k);
    case OpReverse(a, ref, reasonGiven) =>
      var debit := Find(rows, a, Debit, ref);
      if reasonGiven && debit.Some? {
        assert SoundEntry(rows, debit.value);
        var back := -rows[debit.value].amount;
        NewCreditIsUnspent(rows, Entry(a, Adjustment, back, back, None, now, ReversalOf(ref)), k);
      }
    case OpExpire => ExpirySpendsNothing(rows, now, 0, |rows|, k);
    case OpWithdraw(w) => WithdrawalSpendsNothing(rows, w, now, 0, |rows|, k);
  }

  // ----- Runs -----

  lemma {:induction false} RunAccounts(rows: seq<Entry>, ops: seq<(Op, int)>, k: nat)
    requires Inv(rows)
    ensures Spent(Run(rows, ops), k) == Spent(rows, k) + TakenOver(rows, ops, k)
    ensures TakenOver(rows, ops, k) >= 0
    decreases |ops|
  {
    if ops != [] {
      StepAccounts(rows, ops[0].0, ops[0].1, k);
      StepKeepsInv(rows, ops[0].0, ops[0].1);
      RunAccounts(Run1(rows, ops[0].0, ops[0].1), ops[1..], k);
    }
  }

  /** After any run, each credit's amount is what it still holds, plus exactly what the debit loops took from it, plus
      what expired and what was withdrawn. */
  lemma EveryTokenIsAccountedFor(ops: seq<(Op, int)>, k: nat)
    requires k < |Run([], ops)| && IsCredit(Run([], ops)[k].kind)
    ensures var rows := Run([], ops);
            rows[k].amount == rows[k].remaining + TakenOver([], ops, k) + Expired(rows, k) + Withdrawn(rows, k)
  {
    assert Inv([]);
    RunAccounts([], ops, k);
  }
}
