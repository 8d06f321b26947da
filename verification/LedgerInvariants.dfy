/** What every operation of the token ledger keeps: entries are only appended, credit only shrinks, and for each account
    the amounts of all entries add up to what its credits still hold. */
module LedgerInvariants {
  import opened Options
  import opened Sums
  import opened LedgerEntries
  import opened DebitOrder

  ghost predicate SoundEntry(rows: seq<Entry>, i: int)
    requires 0 <= i < |rows|
  {
    var e := rows[i];
    && (if IsCredit(e.kind) then 0 <= e.remaining <= e.amount else e.remaining == 0 && e.amount <= 0)
    && (e.kind.Debit? ==> !e.ref.NoRef?)
    // an expiry entry names a credit of the same account that holds nothing any more
    && (e.kind.Expiry? ==>
          && (e.ref.ExpiryOf? || e.ref.WithdrawalOf?)
          && e.ref.pk < |rows| && rows[e.ref.pk].remaining == 0
          && IsCredit(rows[e.ref.pk].kind) && rows[e.ref.pk].account == e.account)
  }

  ghost predicate UniqueRefs(rows: seq<Entry>) {
    forall i, j :: 0 <= i < j < |rows| && !rows[i].ref.NoRef? ==>
      !Matches(rows[j], rows[i].account, rows[i].kind, rows[i].ref)
  }

  ghost predicate Conserved(rows: seq<Entry>) {
    forall a: nat :: Sum(rows, AmountFn(a)) == Sum(rows, RemainingFn(a))
  }

  ghost predicate Inv(rows: seq<Entry>) {
    (forall i :: 0 <= i < |rows| ==> SoundEntry(rows, i)) && UniqueRefs(rows) && Conserved(rows)
  }

  /** Later tables: everything written stays, only `remaining` may fall. */
  ghost predicate Extends(rows: seq<Entry>, later: seq<Entry>) {
    |rows| <= |later|
    && forall i :: 0 <= i < |rows| ==>
         later[i] == rows[i].(remaining := later[i].remaining) && later[i].remaining <= rows[i].remaining
  }

  lemma ExtendsTransitive(a: seq<Entry>, b: seq<Entry>, c: seq<Entry>)
    requires Extends(a, b) && Extends(b, c)
    ensures Extends(a, c)
  {
  }

  // ----- Appending -----

  lemma AppendKeepsInv(rows: seq<Entry>, e: Entry)
    requires (forall i :: 0 <= i < |rows| ==> SoundEntry(rows, i)) && UniqueRefs(rows)
    requires SoundEntry(rows + [e], |rows|)
    requires !e.ref.NoRef? ==> Find(rows, e.account, e.kind, e.ref).None?
    requires forall a: nat :: Sum(rows, AmountFn(a)) + AmountFn(a)(e) == Sum(rows, RemainingFn(a)) + RemainingFn(a)(e)
    ensures Inv(rows + [e]) && Extends(rows, rows + [e])
  {
    AppendKeepsSound(rows, e);
    AppendKeepsUnique(rows, e);
    AppendKeepsConserved(rows, e);
  }

  lemma AppendKeepsSound(rows: seq<Entry>, e: Entry)
    requires (forall i :: 0 <= i < |rows| ==> SoundEntry(rows, i)) && SoundEntry(rows + [e], |rows|)
    ensures forall i :: 0 <= i < |rows + [e]| ==> SoundEntry(rows + [e], i)
  {
    var later := rows + [e];
    forall i | 0 <= i < |later| ensures SoundEntry(later, i) {
      if i < |rows| { assert SoundEntry(rows, i) && later[i] == rows[i]; }
    }
  }

  lemma AppendKeepsUnique(rows: seq<Entry>, e: Entry)
    requires UniqueRefs(rows) && (!e.ref.NoRef? ==> Find(rows, e.account, e.kind, e.ref).None?)
    ensures UniqueRefs(rows + [e])
  {
  }

  lemma AppendKeepsConserved(rows: seq<Entry>, e: Entry)
    requires forall a: nat :: Sum(rows, AmountFn(a)) + AmountFn(a)(e) == Sum(rows, RemainingFn(a)) + RemainingFn(a)(e)
    ensures Conserved(rows + [e])
  {
    forall a: nat ensures Sum(rows + [e], AmountFn(a)) == Sum(rows + [e], RemainingFn(a)) {
      SumAppend(rows, e, AmountFn(a));
      SumAppend(rows, e, RemainingFn(a));
    }
  }

  lemma CreditKeepsInv(rows: seq<Entry>, e: Entry)
    requires Inv(rows) && IsCredit(e.kind) && 0 <= e.amount == e.remaining
    ensures e.ref.NoRef? ==> Inv(rows + [e]) && Extends(rows, rows + [e])
    ensures Inv(GetOrCreate(rows, e).rows) && Extends(rows, GetOrCreate(rows, e).rows)
  {
    if e.ref.NoRef? || Find(rows, e.account, e.kind, e.ref).None? { AppendKeepsInv(rows, e); }
  }

  // ----- Closing a credit -----

  predicate Names(ref: Ref, k: nat) { (ref.ExpiryOf? || ref.WithdrawalOf?) && ref.pk == k }

  /** Whoever closes a credit that still holds something is the first to do so: the expiry entry is really created. */
  lemma ClosingIsRecorded(rows: seq<Entry>, k: nat, ref: Ref)
    requires Inv(rows) && k < |rows| && rows[k].remaining > 0 && Names(ref, k)
    ensures Find(rows[k := rows[k].(remaining := 0)], rows[k].account, Expiry, ref) == None
  {
    forall i | 0 <= i < |rows| ensures !Matches(rows[i], rows[k].account, Expiry, ref) { assert SoundEntry(rows, i); }
  }

  lemma CloseKeepsInv(rows: seq<Entry>, k: nat, ref: Ref, now: int)
    requires Inv(rows) && k < |rows| && IsCredit(rows[k].kind) && rows[k].remaining > 0 && Names(ref, k)
    ensures var e := Entry(rows[k].account, Expiry, -rows[k].remaining, 0, None, now, ref);
            Close(rows, k, ref, now) == rows[k := rows[k].(remaining := 0)] + [e]
    ensures Inv(Close(rows, k, ref, now)) && Extends(rows, Close(rows, k, ref, now))
  {
    var zeroed := rows[k := rows[k].(remaining := 0)];
    var e := Entry(rows[k].account, Expiry, -rows[k].remaining, 0, None, now, ref);
    ClosingIsRecorded(rows, k, ref);
    forall i | 0 <= i < |zeroed| ensures SoundEntry(zeroed, i) { assert SoundEntry(rows, i); }
    forall a: nat
      ensures Sum(zeroed, AmountFn(a)) + AmountFn(a)(e) == Sum(zeroed, RemainingFn(a)) + RemainingFn(a)(e)
    {
      SumUpdate(rows, k, zeroed[k], AmountFn(a));
      SumUpdate(rows, k, zeroed[k], RemainingFn(a));
    }
    assert forall i, j :: 0 <= i < j < |zeroed| && !zeroed[i].ref.NoRef? ==>
             !Matches(rows[j], rows[i].account, rows[i].kind, rows[i].ref);
    AppendKeepsInv(zeroed, e);
  }

  lemma {:induction false} ExpireKeepsInv(rows: seq<Entry>, now: int, k: nat, n: nat)
    requires Inv(rows) && k <= n <= |rows|
    ensures Inv(ExpireFrom(rows, now, k, n)) && Extends(rows, ExpireFrom(rows, now, k, n))
    decreases n - k
  {
    if k < n {
      var next := if Due(rows[k], now) then Close(rows, k, ExpiryOf(k), now) else rows;
      if Due(rows[k], now) { CloseKeepsInv(rows, k, ExpiryOf(k), now); }
      ExpireKeepsInv(next, now, k + 1, n);
      ExtendsTransitive(rows, next, ExpireFrom(next, now, k + 1, n));
    }
  }

  lemma {:induction false} WithdrawKeepsInv(rows: seq<Entry>, w: Withdrawal, now: int, k: nat, n: nat)
    requires Inv(rows) && k <= n <= |rows|
    ensures Inv(WithdrawFrom(rows, w, now, k, n)) && Extends(rows, WithdrawFrom(rows, w, now, k, n))
    decreases n - k
  {
    if k < n {
      var closing := Covered(rows[k], w) && rows[k].remaining > 0;
      var next := if closing then Close(rows, k, WithdrawalOf(w.name, k), now) else rows;
      if closing { CloseKeepsInv(rows, k, WithdrawalOf(w.name, k), now); }
      WithdrawKeepsInv(next, w, now, k + 1, n);
      ExtendsTransitive(rows, next, WithdrawFrom(next, w, now, k + 1, n));
    }
  }

  // ----- Debits -----

  lemma SoundIsNonNegative(rows: seq<Entry>)
    requires forall i :: 0 <= i < |rows| ==> SoundEntry(rows, i)
    ensures NonNegative(rows)
  {
    forall i | 0 <= i < |rows| ensures 0 <= rows[i].remaining { assert SoundEntry(rows, i); }
  }

  // What the account's credits hold that cannot be spent any more.
  function StaleFn(account: nat, now: int): Entry -> int {
    (e: Entry) => if e.account == account && !(IsCredit(e.kind) && Outlives(e, now)) then e.remaining else 0
  }

  /** A debit takes exactly its amount, from credits that the account can spend, and from no other account. */
  lemma TakeIsExact(rows: seq<Entry>, account: nat, amount: int, now: int, a: nat)
    requires NonNegative(rows) && 0 <= amount <= Balance(rows, account, now)
    ensures Sum(Take(rows, Credits(rows, account, now), amount), RemainingFn(a))
            == Sum(rows, RemainingFn(a)) - if a == account then amount else 0
  {
    var ids := Credits(rows, account, now);
    var after := Take(rows, ids, amount);
    if a == account {
      DebitLeavesTheLatest(rows, account, amount, now, now);
      SumPointwise(rows, after, StaleFn(account, now));
      SumAdd(rows, RemainingFn(a), TailFn(a, now), StaleFn(a, now));
      SumAdd(after, RemainingFn(a), TailFn(a, now), StaleFn(a, now));
    } else {
      SumPointwise(rows, after, RemainingFn(a));
    }
  }

  // What is left of the credits after taking the amount, short of the debit entry itself.
  lemma TakenIsSound(rows: seq<Entry>, account: nat, amount: int, now: int, taken: seq<Entry>)
    requires Inv(rows) && 0 < amount <= Balance(rows, account, now)
             && taken == Take(rows, Credits(rows, account, now), amount)
    ensures (forall i :: 0 <= i < |taken| ==> SoundEntry(taken, i)) && UniqueRefs(taken) && Extends(rows, taken)
    ensures forall a: nat :: Sum(taken, AmountFn(a)) == Sum(taken, RemainingFn(a)) + if a == account then amount else 0
  {
    SoundIsNonNegative(rows);
    TakeOnlyShrinks(rows, Credits(rows, account, now), amount);
    forall i | 0 <= i < |taken| ensures SoundEntry(taken, i) { assert SoundEntry(rows, i); }
    forall a: nat ensures Sum(taken, AmountFn(a)) == Sum(taken, RemainingFn(a)) + if a == account then amount else 0 {
      SumPointwise(rows, taken, AmountFn(a));
      TakeIsExact(rows, account, amount, now, a);
    }
    assert forall i, j :: 0 <= i < j < |taken| && !taken[i].ref.NoRef? ==>
             !Matches(rows[j], rows[i].account, rows[i].kind, rows[i].ref);
  }

  lemma DebitKeepsInv(rows: seq<Entry>, account: nat, amount: int, ref: Ref, now: int)
    requires Inv(rows)
    ensures Inv(DebitTokens(rows, account, amount, ref, now).rows)
    ensures Extends(rows, DebitTokens(rows, account, amount, ref, now).rows)
  {
    if 0 < amount <= Balance(rows, account, now) && !ref.NoRef? && Find(rows, account, Debit, ref).None? {
      var taken := Take(rows, Credits(rows, account, now), amount);
      var e := Entry(account, Debit, -amount, 0, None, now, ref);
      TakenIsSound(rows, account, amount, now, taken);
      AppendKeepsInv(taken, e);
      ExtendsTransitive(rows, taken, taken + [e]);
    }
  }

  // ----- Every operation, every run -----

  lemma ReversalKeepsInv(rows: seq<Entry>, a: nat, ref: Ref, reasonGiven: bool, now: int)
    requires Inv(rows)
    ensures var later := ReverseDebit(rows, a, ref, reasonGiven, now).rows; Inv(later) && Extends(rows, later)
  {
    var debit := Find(rows, a, Debit, ref);
    if reasonGiven && debit.Some? {
      assert SoundEntry(rows, debit.value);
      var back := -rows[debit.value].amount;
      CreditKeepsInv(rows, Entry(a, Adjustment, back, back, None, now, ReversalOf(ref)));
    }
  }

  lemma StepKeepsInv(rows: seq<Entry>, op: Op, now: int)
    requires Inv(rows)
    ensures Inv(Run1(rows, op, now)) && Extends(rows, Run1(rows, op, now))
  {
    match op
    case OpGrant(a, amount, expires, ref) =>
      if amount > 0 { CreditKeepsInv(rows, Entry(a, Grant, amount, amount, expires, now, ref)); }
    case OpPurchase(a, amount, ref) =>
      if amount > 0 { CreditKeepsInv(rows, Entry(a, Bought, amount, amount, None, now, ref)); }
    case OpDebit(a, amount, ref) => DebitKeepsInv(rows, a, amount, ref, now);
    case OpReverse(a, ref, reasonGiven) =>
      ReversalKeepsInv(rows, a, ref, reasonGiven, now);
    case OpExpire => ExpireKeepsInv(rows, now, 0, |rows|);
    case OpWithdraw(w) => WithdrawKeepsInv(rows, w, now, 0, |rows|);
  }

  lemma {:induction false} RunKeepsInv(rows: seq<Entry>, ops: seq<(Op, int)>)
    requires Inv(rows)
    ensures Inv(Run(rows, ops)) && Extends(rows, Run(rows, ops))
    decreases |ops|
  {
    if ops != [] {
      StepKeepsInv(rows, ops[0].0, ops[0].1);
      RunKeepsInv(Run1(rows, ops[0].0, ops[0].1), ops[1..]);
      ExtendsTransitive(rows, Run1(rows, ops[0].0, ops[0].1), Run(rows, ops));
    }
  }

  /** Conservation: after any run, every account's entries add up to what its credits hold, and no credit holds less
      than nothing or more than it was given. */
  lemma LedgerIsConserved(ops: seq<(Op, int)>, account: nat)
    ensures var rows := Run([], ops);
            && Sum(rows, AmountFn(account)) == Sum(rows, RemainingFn(account))
            && forall i :: 0 <= i < |rows| && IsCredit(rows[i].kind) ==> 0 <= rows[i].remaining <= rows[i].amount
  {
    assert Inv([]);
    RunKeepsInv([], ops);
    forall i | 0 <= i < |Run([], ops)| && IsCredit(Run([], ops)[i].kind)
      ensures 0 <= Run([], ops)[i].remaining <= Run([], ops)[i].amount
    {
      assert SoundEntry(Run([], ops), i);
    }
  }

  // ----- Replays -----

  lemma FindIsStable(rows: seq<Entry>, later: seq<Entry>, account: nat, kind: Kind, ref: Ref)
    requires Extends(rows, later) && Find(rows, account, kind, ref).Some?
    ensures Find(later, account, kind, ref) == Find(rows, account, kind, ref)
  {
    var r, l := Find(rows, account, kind, ref), Find(later, account, kind, ref);
    assert Matches(later[r.value], account, kind, ref);
    assert l.Some? && l.value <= r.value;
    assert Matches(rows[l.value], account, kind, ref);
  }

  // A referenced operation together with the outcome it had.
  function Attempted(rows: seq<Entry>, op: Op, now: int): Update
    requires op.OpGrant? || op.OpPurchase? || op.OpDebit? || op.OpReverse?
  {
    match op
    case OpGrant(a, amount, expires, ref) => GrantTokens(rows, a, amount, expires, ref, now)
    case OpPurchase(a, amount, ref) => CreditPurchase(rows, a, amount, ref, now)
    case OpDebit(a, amount, ref) => DebitTokens(rows, a, amount, ref, now)
    case OpReverse(a, ref, reasonGiven) => ReverseDebit(rows, a, ref, reasonGiven, now)
  }

  /** Replaying a successful referenced operation, however much happened in between, answers with the same entry and
      changes nothing. */
  lemma ReplayChangesNothing(rows: seq<Entry>, op: Op, now: int, between: seq<(Op, int)>, retried: int)
    requires Inv(rows) && (op.OpGrant? || op.OpPurchase? || op.OpDebit? || op.OpReverse?) && !op.ref.NoRef?
    requires Attempted(rows, op, now).outcome.Done?
    ensures var later := Run(Attempted(rows, op, now).rows, between);
            Attempted(later, op, retried) == Update(later, Attempted(rows, op, now).outcome)
  {
    var done := Attempted(rows, op, now);
    StepKeepsInv(rows, op, now);
    RunKeepsInv(done.rows, between);
    var later := Run(done.rows, between);
    match op
    case OpGrant(a, amount, expires, ref) =>
      FindIsStable(done.rows, later, a, Grant, ref);
    case OpPurchase(a, amount, ref) =>
      FindIsStable(done.rows, later, a, Bought, ref);
    case OpDebit(a, amount, ref) =>
      DebitIsFound(rows, a, amount, ref, now);
      FindIsStable(done.rows, later, a, Debit, ref);
    case OpReverse(a, ref, reasonGiven) =>
      FindIsStable(rows, done.rows, a, Debit, ref);
      FindIsStable(done.rows, later, a, Debit, ref);
      FindIsStable(done.rows, later, a, Adjustment, ReversalOf(ref));
  }

  lemma DebitIsFound(rows: seq<Entry>, account: nat, amount: int, ref: Ref, now: int)
    requires DebitTokens(rows, account, amount, ref, now).outcome.Done?
    ensures var u := DebitTokens(rows, account, amount, ref, now);
            && Find(u.rows, account, Debit, ref) == Some(u.outcome.pk)
            && u.rows[u.outcome.pk].amount == -amount
  {
    var u := DebitTokens(rows, account, amount, ref, now);
    if Find(rows, account, Debit, ref).None? {
      assert Matches(u.rows[|rows|], account, Debit, ref);
      assert forall i :: 0 <= i < |rows| ==> u.rows[i].kind == rows[i].kind && u.rows[i].ref == rows[i].ref
                                             && u.rows[i].account == rows[i].account;
    }
  }
}
