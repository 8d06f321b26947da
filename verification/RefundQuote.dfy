/** The refund quoted for a withdrawal: the larger of the time used and the tokens used is kept, the rest is
    refunded. */
module RefundQuote {
  import opened Options
  import opened Sums
  import opened LedgerEntries
  import opened LedgerInvariants
  import opened LedgerHistory

  const DAY := 86_400_000_000  // microseconds

  // What was sold for how much, as far as its quote depends on it.
  datatype Sale = Sale(kind: ProductKind, paid: nat, termStart: Option<int>, termEnd: Option<int>,
                       tokensGranted: nat, grants: Withdrawal)

  datatype Calculation = Calculation(timeShare: int, tokenShare: int, used: int, refund: int)

  function CeilDiv(n: int, d: int): int
    requires d != 0
  {
    if n != 0 then (n + d - 1) / d else 0
  }

  // Started days in a span of microseconds.
  function DaysUp(span: int): int { if span <= 0 then 0 else (span + DAY - 1) / DAY }

  function TermDays(start: int, end: int): (d: int)
    ensures 1 <= d
  {
    Max(1, DaysUp(Max(0, end - start)))
  }

  function UsedDays(start: int, end: int, now: int): int {
    Min(TermDays(start, end), Max(0, DaysUp(Max(0, now - start))))
  }

  predicate HasTerm(p: Sale) { !p.kind.TokenPackage? && p.termStart.Some? && p.termEnd.Some? }

  // `refund_amount` computes the same share for purchases with and without tokens.
  function TimeShare(p: Sale, now: int): int {
    if HasTerm(p) then
      CeilDiv(UsedDays(p.termStart.value, p.termEnd.value, now) * p.paid, TermDays(p.termStart.value, p.termEnd.value))
    else 0
  }

  // What the ledger says was spent of one entry: what is missing from it beyond its own expiry entry.
  function Consumed(rows: seq<Entry>, k: nat): int
    requires k < |rows|
  {
    var closing := Find(rows, rows[k].account, Expiry, ExpiryOf(k));
    var expired := if closing.Some? then -rows[closing.value].amount else 0;
    Max(0, rows[k].amount - rows[k].remaining - Max(0, expired))
  }

  function ConsumedUpTo(rows: seq<Entry>, w: Withdrawal, n: nat): int
    requires n <= |rows|
  {
    if n == 0 then 0
    else ConsumedUpTo(rows, w, n - 1) + if Covered(rows[n - 1], w) then Consumed(rows, n - 1) else 0
  }

  function TokenShare(p: Sale, consumed: int): int {
    if p.tokensGranted > 0 then CeilDiv(Min(p.tokensGranted, consumed) * p.paid, p.tokensGranted) else 0
  }

  function QuoteFor(p: Sale, consumed: int, now: int): Calculation {
    var time, token := TimeShare(p, now), TokenShare(p, consumed);
    var used := Min(p.paid, Max(time, token));
    Calculation(time, token, used, Max(0, p.paid - used))
  }

  function Quote(rows: seq<Entry>, p: Sale, now: int): Calculation {
    QuoteFor(p, ConsumedUpTo(rows, p.grants, |rows|), now)
  }

  method RefundAmount(rows: seq<Entry>, p: Sale, now: int) returns (r: Calculation)
    ensures r == Quote(rows, p, now)
  {
    var time := TimeShare(p, now);
    var consumed, k := 0, 0;
    while k < |rows|
      invariant 0 <= k <= |rows|
      invariant consumed == ConsumedUpTo(rows, p.grants, k)
    {
      if Covered(rows[k], p.grants) {
        var closing := Find(rows, rows[k].account, Expiry, ExpiryOf(k));
        var expired := if closing.Some? then -rows[closing.value].amount else 0;
        consumed := consumed + Max(0, rows[k].amount - rows[k].remaining - Max(0, expired));
      }
      k := k + 1;
    }
    var token := TokenShare(p, consumed);
    var used := Min(p.paid, Max(time, token));
    return Calculation(time, token, used, Max(0, p.paid - used));
  }

  // ----- Rounding -----

  /** The share is the exact ceiling of its fraction. */
  lemma CeilDivIsCeiling(n: nat, d: nat)
    requires 0 < d
    ensures n <= CeilDiv(n, d) * d < n + d
  {
    if n > 0 {
      var q := (n + d - 1) / d;
      assert n + d - 1 == q * d + (n + d - 1) % d;
    }
  }

  lemma MulMonotone(a: int, b: int, d: nat)
    requires a <= b
    ensures a * d <= b * d
  {
  }

  lemma MulCancel(a: int, b: int, d: nat)
    requires a * d < b * d
    ensures a < b
  {
    if b <= a { MulMonotone(b, a, d); }
  }

  lemma CeilDivMonotone(m: nat, n: nat, d: nat)
    requires 0 < d && m <= n
    ensures 0 <= CeilDiv(m, d) <= CeilDiv(n, d)
  {
    CeilDivIsCeiling(m, d);
    CeilDivIsCeiling(n, d);
    var a, b := CeilDiv(m, d), CeilDiv(n, d);
    assert (a - 1) * d == a * d - d;
    MulCancel(a - 1, b, d);
    assert (-1) * d < 0;
    MulCancel(-1, a, d);
  }

  // used out of whole, times the price, rounded up.
  lemma ShareMonotone(used: nat, more: nat, whole: nat, paid: nat)
    requires 0 < whole && used <= more
    ensures 0 <= CeilDiv(used * paid, whole) <= CeilDiv(more * paid, whole)
  {
    assert more * paid == used * paid + (more - used) * paid;
    assert 0 <= used * paid && 0 <= (more - used) * paid;
    CeilDivMonotone(used * paid, more * paid, whole);
  }

  lemma WholeShare(whole: nat, paid: nat)
    requires 0 < whole
    ensures CeilDiv(whole * paid, whole) == paid
  {
    var c := CeilDiv(whole * paid, whole);
    CeilDivIsCeiling(whole * paid, whole);
    assert (paid - 1) * whole == whole * paid - whole;
    MulCancel(paid - 1, c, whole);
    assert (paid + 1) * whole == whole * paid + whole;
    MulCancel(c, paid + 1, whole);
  }

  lemma DaysUpMonotone(a: int, b: int)
    requires a <= b
    ensures 0 <= DaysUp(a) <= DaysUp(b)
  {
  }

  // ----- What is kept -----

  // The least number of whole days, from `floor` on, that covers the span; a day has 24 hours of microseconds.
  ghost predicate LeastDays(days: int, floor: int, span: int) {
    && floor <= days && span <= days * 24 * 3600 * 1_000_000
    && (floor < days ==> (days - 1) * 24 * 3600 * 1_000_000 < span)
  }

  // The least number of cents that covers part / whole of the price.
  ghost predicate LeastCents(cents: int, part: int, whole: int, paid: int) {
    && 0 <= cents && part * paid <= cents * whole
    && (0 < cents ==> (cents - 1) * whole < part * paid)
  }

  lemma TermIsLeast(start: int, end: int)
    ensures LeastDays(TermDays(start, end), 1, end - start)
  {
  }

  // Days begun since the start, but no more than the term has.
  lemma UsedIsLeast(start: int, end: int, now: int)
    ensures exists begun ::
              LeastDays(begun, 0, now - start) && UsedDays(start, end, now) == Min(TermDays(start, end), begun)
  {
    var begun := DaysUp(Max(0, now - start));
    DaysUpMonotone(0, Max(0, now - start));
    assert UsedDays(start, end, now) == Min(TermDays(start, end), begun);
    assert LeastDays(begun, 0, now - start);
  }

  lemma CeilDivIsLeast(part: nat, whole: nat, paid: nat)
    requires 0 < whole
    ensures LeastCents(CeilDiv(part * paid, whole), part, whole, paid)
  {
    var c := CeilDiv(part * paid, whole);
    assert 0 <= part * paid;
    CeilDivIsCeiling(part * paid, whole);
    assert (c - 1) * whole == c * whole - whole;
    if c < 0 { MulMonotone(c, -1, whole); }
  }

  ghost predicate TimeIsCharged(p: Sale) { p.kind != TokenPackage && p.termStart != None && p.termEnd != None }

  /** What a withdrawal keeps: of the days begun and of the tokens spent, each rounded up to the cent, the larger share,
      and nothing for a sale without a term or without tokens. The rest is refunded. */
  lemma LargerShareIsKept(p: Sale, consumed: nat, now: int)
    ensures var q := QuoteFor(p, consumed, now);
            && (if TimeIsCharged(p) then
                  var start, end := p.termStart.value, p.termEnd.value;
                  LeastCents(q.timeShare, UsedDays(start, end, now), TermDays(start, end), p.paid)
                else q.timeShare == 0)
            && (if 0 < p.tokensGranted then
                  LeastCents(q.tokenShare, Min(p.tokensGranted, consumed), p.tokensGranted, p.paid)
                else q.tokenShare == 0)
            && q.timeShare <= q.used && q.tokenShare <= q.used && (q.used == q.timeShare || q.used == q.tokenShare)
            && q.refund == p.paid - q.used
  {
    if TimeIsCharged(p) {
      var start, end := p.termStart.value, p.termEnd.value;
      CeilDivIsLeast(UsedDays(start, end, now), TermDays(start, end), p.paid);
      ShareMonotone(UsedDays(start, end, now), TermDays(start, end), TermDays(start, end), p.paid);
      WholeShare(TermDays(start, end), p.paid);
    }
    if 0 < p.tokensGranted {
      CeilDivIsLeast(Min(p.tokensGranted, consumed), p.tokensGranted, p.paid);
      ShareMonotone(Min(p.tokensGranted, consumed), p.tokensGranted, p.tokensGranted, p.paid);
      WholeShare(p.tokensGranted, p.paid);
    }
  }

  // ----- The quote -----

  lemma QuoteBounds(p: Sale, consumed: int, now: int)
    ensures var q := QuoteFor(p, consumed, now);
            q.refund == p.paid - q.used && (0 <= consumed ==> 0 <= q.refund <= p.paid)
  {
    if 0 <= consumed && p.tokensGranted > 0 {
      ShareMonotone(0, Min(p.tokensGranted, consumed), p.tokensGranted, p.paid);
    }
  }

  /** More spent and a later moment never raise the quote. */
  lemma QuoteMonotone(p: Sale, consumed: nat, more: nat, now: int, later: int)
    requires consumed <= more && now <= later
    ensures QuoteFor(p, more, later).refund <= QuoteFor(p, consumed, now).refund
  {
    if HasTerm(p) {
      var start, end := p.termStart.value, p.termEnd.value;
      DaysUpMonotone(Max(0, now - start), Max(0, later - start));
      ShareMonotone(UsedDays(start, end, now), UsedDays(start, end, later), TermDays(start, end), p.paid);
    }
    if p.tokensGranted > 0 {
      ShareMonotone(Min(p.tokensGranted, consumed), Min(p.tokensGranted, more), p.tokensGranted, p.paid);
    }
  }

  /** Everything back before the term with nothing spent; nothing back once the term or all its tokens are used. */
  lemma QuoteAtTheEnds(p: Sale, consumed: nat, now: int)
    ensures (HasTerm(p) ==> now <= p.termStart.value) && consumed == 0 ==> QuoteFor(p, consumed, now).refund == p.paid
    ensures HasTerm(p) && p.termEnd.value <= now && p.termStart.value < now ==> QuoteFor(p, consumed, now).refund == 0
    ensures 0 < p.tokensGranted <= consumed ==> QuoteFor(p, consumed, now).refund == 0
  {
    if HasTerm(p) {
      var start, end := p.termStart.value, p.termEnd.value;
      if end <= now && start < now {
        DaysUpMonotone(Max(0, end - start), now - start);
        DaysUpMonotone(1, now - start);
        WholeShare(TermDays(start, end), p.paid);
      }
    }
    if p.tokensGranted > 0 { WholeShare(p.tokensGranted, p.paid); }
  }

  // ----- Consumed is what debits took -----

  /** The expiry entry of a credit, if there is one, is the only one. */
  lemma OneExpiryEntry(rows: seq<Entry>, k: nat)
    requires Inv(rows) && k < |rows|
    ensures var closing := Find(rows, rows[k].account, Expiry, ExpiryOf(k));
            Expired(rows, k) == if closing.Some? then -rows[closing.value].amount else 0
  {
    var closing := Find(rows, rows[k].account, Expiry, ExpiryOf(k));
    forall i | 0 <= i < |rows| && rows[i].kind.Expiry? && rows[i].ref == ExpiryOf(k)
      ensures Matches(rows[i], rows[k].account, Expiry, ExpiryOf(k))
    {
      assert SoundEntry(rows, i);
    }
    if closing.Some? {
      var c := closing.value;
      assert rows[..c + 1][..c] == rows[..c];
      SumZero(rows[..c], ExpiredFn(k));
      SumTailZero(rows, c + 1, ExpiredFn(k));
    } else {
      SumZero(rows, ExpiredFn(k));
    }
  }

  /** In every reachable ledger `refund_amount` counts, for a credit no withdrawal has touched, exactly the tokens the
      debit loops took from it; tokens that expired unspent are never billed. */
  lemma ConsumedIsWhatDebitsTook(ops: seq<(Op, int)>, k: nat)
    requires k < |Run([], ops)| && IsCredit(Run([], ops)[k].kind)
    ensures Consumed(Run([], ops), k) == TakenOver([], ops, k) + Withdrawn(Run([], ops), k)
    ensures (forall i :: 0 <= i < |ops| ==> !ops[i].0.OpWithdraw?) ==>
              Consumed(Run([], ops), k) == TakenOver([], ops, k)
  {
    assert Inv([]);
    RunKeepsInv([], ops);
    RunAccounts([], ops, k);
    ConsumedIsSpent(Run([], ops), k);
    if forall i :: 0 <= i < |ops| ==> !ops[i].0.OpWithdraw? { NoWithdrawals([], ops, k); }
  }

  lemma ClosingsAreNonNegative(rows: seq<Entry>, k: nat)
    requires Inv(rows)
    ensures 0 <= Expired(rows, k) && 0 <= Withdrawn(rows, k)
  {
    forall e | e in rows ensures 0 <= ExpiredFn(k)(e) && 0 <= WithdrawnFn(k)(e) {
      var i :| 0 <= i < |rows| && rows[i] == e;
      assert SoundEntry(rows, i);
    }
    SumPrefix(rows, |rows|, ExpiredFn(k));
    SumPrefix(rows, |rows|, WithdrawnFn(k));
  }

  lemma ConsumedIsSpent(rows: seq<Entry>, k: nat)
    requires Inv(rows) && k < |rows| && IsCredit(rows[k].kind) && 0 <= Spent(rows, k)
    ensures Consumed(rows, k) == Spent(rows, k) + Withdrawn(rows, k)
  {
    OneExpiryEntry(rows, k);
    ClosingsAreNonNegative(rows, k);
  }

  lemma CloseRecordsExpiry(rows: seq<Entry>, c: nat, now: int, k: nat)
    requires Inv(rows) && c < |rows| && IsCredit(rows[c].kind) && rows[c].remaining > 0
    ensures Withdrawn(Close(rows, c, ExpiryOf(c), now), k) == Withdrawn(rows, k)
  {
    CloseKeepsInv(rows, c, ExpiryOf(c), now);
    var zeroed := rows[c := rows[c].(remaining := 0)];
    SumUpdate(rows, c, zeroed[c], WithdrawnFn(k));
    SumAppend(zeroed, Entry(rows[c].account, Expiry, -rows[c].remaining, 0, None, now, ExpiryOf(c)), WithdrawnFn(k));
  }

  lemma {:induction false} ExpiryWithdrawsNothing(rows: seq<Entry>, now: int, c: nat, n: nat, k: nat)
    requires Inv(rows) && c <= n <= |rows|
    ensures Withdrawn(ExpireFrom(rows, now, c, n), k) == Withdrawn(rows, k)
    decreases n - c
  {
    if c < n {
      var next := if Due(rows[c], now) then Close(rows, c, ExpiryOf(c), now) else rows;
      if Due(rows[c], now) {
        CloseKeepsInv(rows, c, ExpiryOf(c), now);
        CloseRecordsExpiry(rows, c, now, k);
      }
      ExpiryWithdrawsNothing(next, now, c + 1, n, k);
    }
  }

  lemma StepWithdrawsNothing(rows: seq<Entry>, op: Op, now: int, k: nat)
    requires Inv(rows) && !op.OpWithdraw?
    ensures Withdrawn(Run1(rows, op, now), k) == Withdrawn(rows, k)
  {
    var after := Run1(rows, op, now);
    if op.OpExpire? {
      ExpiryWithdrawsNothing(rows, now, 0, |rows|, k);
    } else if op.OpDebit? {
      if |after| != |rows| {
        DebitRecordsNoClosing(rows, Take(rows, Credits(rows, op.account, now), op.amount), after[|rows|], k);
      }
    } else if |after| != |rows| {
      SumAppend(rows, after[|rows|], WithdrawnFn(k));
    }
  }

  lemma {:induction false} NoWithdrawals(rows: seq<Entry>, ops: seq<(Op, int)>, k: nat)
    requires Inv(rows) && forall i :: 0 <= i < |ops| ==> !ops[i].0.OpWithdraw?
    ensures Withdrawn(Run(rows, ops), k) == Withdrawn(rows, k)
    decreases |ops|
  {
    if ops != [] {
      assert !ops[0].0.OpWithdraw?;
      StepWithdrawsNothing(rows, ops[0].0, ops[0].1, k);
      StepKeepsInv(rows, ops[0].0, ops[0].1);
      NoWithdrawals(Run1(rows, ops[0].0, ops[0].1), ops[1..], k);
    }
  }

  // ----- The quote over a run -----

  lemma WithdrawnGrows(rows: seq<Entry>, later: seq<Entry>, k: nat)
    requires Extends(rows, later) && Inv(later)
    ensures Withdrawn(rows, k) <= Withdrawn(later, k)
  {
    SumPointwise(rows, later[..|rows|], WithdrawnFn(k));
    forall e | e in later ensures 0 <= WithdrawnFn(k)(e) {
      var i :| 0 <= i < |later| && later[i] == e;
      assert SoundEntry(later, i);
    }
    SumPrefix(later, |rows|, WithdrawnFn(k));
  }

  lemma {:induction false} ConsumedGrows(rows: seq<Entry>, later: seq<Entry>, w: Withdrawal, n: nat, m: nat)
    requires Extends(rows, later) && n <= |rows| && n <= m <= |later| && (n < m ==> n == |rows|)
    requires forall k: nat :: k < |rows| && IsCredit(rows[k].kind) ==> Consumed(rows, k) <= Consumed(later, k)
    ensures 0 <= ConsumedUpTo(rows, w, n) <= ConsumedUpTo(later, w, m)
    decreases m
  {
    if m > 0 { ConsumedGrows(rows, later, w, if m > n then n else n - 1, m - 1); }
  }

  /** Along any run of ledger operations, and as time passes, the quote of an active purchase never rises; it always
      stays between nothing and what was paid. */
  lemma QuoteNeverRises(ops: seq<(Op, int)>, more: seq<(Op, int)>, p: Sale, now: int, later: int)
    requires now <= later
    ensures var rows := Run([], ops);
            0 <= Quote(Run(rows, more), p, later).refund <= Quote(rows, p, now).refund <= p.paid
  {
    assert Inv([]);
    RunKeepsInv([], ops);
    var rows := Run([], ops);
    RunKeepsInv(rows, more);
    var grown := Run(rows, more);
    forall k: nat | k < |rows| && IsCredit(rows[k].kind) ensures Consumed(rows, k) <= Consumed(grown, k) {
      RunAccounts([], ops, k);
      RunAccounts(rows, more, k);
      ConsumedIsSpent(rows, k);
      ConsumedIsSpent(grown, k);
      WithdrawnGrows(rows, grown, k);
    }
    ConsumedGrows(rows, grown, p.grants, |rows|, |grown|);
    QuoteBounds(p, ConsumedUpTo(rows, p.grants, |rows|), now);
    QuoteBounds(p, ConsumedUpTo(grown, p.grants, |grown|), later);
    QuoteMonotone(p, ConsumedUpTo(rows, p.grants, |rows|), ConsumedUpTo(grown, p.grants, |grown|), now, later);
  }
}
