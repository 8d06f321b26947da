/** Earliest-expiry-first is optimal: on every timeline of credits, expiries, and debits, if any way of choosing which
    unexpired credits to spend serves all debits, the ledger's debit loop serves them too. */
module DebitOptimality {
  import opened Options
  import opened Sums
  import opened LedgerEntries
  import opened DebitOrder
  import opened LedgerInvariants

  datatype Event =
    | CreditArrives(amount: nat, expires: Option<int>)
    | Sweep                               // the expiry command runs
    | Demand(amount: nat, ref: Ref)

  datatype At = At(event: Event, time: int)

  // ----- The ledger on a timeline -----

  function Serve(rows: seq<Entry>, account: nat, at: At): Update {
    match at.event
    case CreditArrives(amount, expires) => GrantTokens(rows, account, amount, expires, NoRef, at.time)
    case Sweep => Update(ExpireTokens(rows, at.time), Done(0))
    case Demand(amount, ref) => DebitTokens(rows, account, amount, ref, at.time)
  }

  predicate ServesAll(rows: seq<Entry>, account: nat, timeline: seq<At>)
    decreases |timeline|
  {
    timeline == []
    || ((timeline[0].event.Demand? ==> Serve(rows, account, timeline[0]).outcome.Done?)
        && ServesAll(Serve(rows, account, timeline[0]).rows, account, timeline[1..]))
  }

  // ----- Any other allocator -----

  datatype Lot = Lot(expires: Option<int>, left: int)

  predicate LotOutlives(lot: Lot, t: int) { lot.expires.None? || lot.expires.value > t }

  function LotFn(t: int): Lot -> int { (l: Lot) => if LotOutlives(l, t) then l.left else 0 }

  function PoolTail(pool: seq<Lot>, t: int): int { Sum(pool, LotFn(t)) }

  /** Some unexpired lots, chosen freely, give `amount` tokens between them. */
  ghost predicate Allocates(pool: seq<Lot>, pool': seq<Lot>, now: int, amount: nat) {
    && |pool'| == |pool|
    && (forall i :: 0 <= i < |pool| ==>
          && pool'[i].expires == pool[i].expires && 0 <= pool'[i].left <= pool[i].left
          && (!LotOutlives(pool[i], now) ==> pool'[i] == pool[i]))
    && PoolTail(pool', now) == PoolTail(pool, now) - amount
  }

  ghost predicate PoolStep(pool: seq<Lot>, pool': seq<Lot>, at: At) {
    match at.event
    case CreditArrives(amount, expires) => pool' == pool + [Lot(expires, amount)]
    case Sweep =>
      |pool'| == |pool|
      && forall i :: 0 <= i < |pool| ==>
           pool'[i] == if LotOutlives(pool[i], at.time) then pool[i] else Lot(pool[i].expires, 0)
    case Demand(amount, _) => Allocates(pool, pool', at.time, amount)
  }

  ghost predicate SomeAllocatorServes(timeline: seq<At>, pools: seq<seq<Lot>>) {
    && |pools| == |timeline| + 1 && pools[0] == []
    && forall i :: 0 <= i < |timeline| ==> PoolStep(pools[i], pools[i + 1], timeline[i])
  }

  // ----- Domination -----

  /** At every moment from now on, the ledger has at least as much credit outliving it. */
  ghost predicate Dominates(rows: seq<Entry>, account: nat, pool: seq<Lot>, now: int) {
    forall t :: now <= t ==> PoolTail(pool, t) <= Tail(rows, account, t)
  }

  ghost predicate Full(pool: seq<Lot>) { forall i :: 0 <= i < |pool| ==> 0 <= pool[i].left }

  /** No allocator can leave more behind than the debit loop does. */
  lemma AllocationLeavesNoMore(pool: seq<Lot>, pool': seq<Lot>, now: int, amount: nat, t: int)
    requires Full(pool) && Allocates(pool, pool', now, amount) && now <= t
    ensures PoolTail(pool', t) <= Min(PoolTail(pool, t), PoolTail(pool, now) - amount)
  {
    SumPointwiseLe(pool', pool, LotFn(t), LotFn(t));
    SumLe(pool', LotFn(t), LotFn(now));
  }

  /** After a debit, credit outliving t is as before, cut down only to what is left of the balance. */
  lemma DebitTail(rows: seq<Entry>, account: nat, amount: int, ref: Ref, now: int, t: int)
    requires Inv(rows) && now <= t && DebitTokens(rows, account, amount, ref, now).outcome.Done?
    requires Find(rows, account, Debit, ref).None?
    ensures Tail(DebitTokens(rows, account, amount, ref, now).rows, account, t)
            == Min(Tail(rows, account, t), Balance(rows, account, now) - amount)
  {
    SoundIsNonNegative(rows);
    DebitLeavesTheLatest(rows, account, amount, now, t);
    SumAppend(Take(rows, Credits(rows, account, now), amount), Entry(account, Debit, -amount, 0, None, now, ref),
              TailFn(account, t));
  }

  // Closing what is due takes nothing from what outlives a later moment.
  lemma ClosingKeepsTail(rows: seq<Entry>, now: int, k: nat, account: nat, t: int)
    requires Inv(rows) && k < |rows| && Due(rows[k], now) && now <= t
    ensures Inv(Close(rows, k, ExpiryOf(k), now))
            && Tail(Close(rows, k, ExpiryOf(k), now), account, t) == Tail(rows, account, t)
  {
    CloseKeepsInv(rows, k, ExpiryOf(k), now);
    var zeroed := rows[k := rows[k].(remaining := 0)];
    SumUpdate(rows, k, zeroed[k], TailFn(account, t));
    SumAppend(zeroed, Entry(rows[k].account, Expiry, -rows[k].remaining, 0, None, now, ExpiryOf(k)),
              TailFn(account, t));
  }

  lemma {:induction false} ExpiryKeepsTail(rows: seq<Entry>, now: int, k: nat, n: nat, account: nat, t: int)
    requires Inv(rows) && k <= n <= |rows| && now <= t
    ensures Tail(ExpireFrom(rows, now, k, n), account, t) == Tail(rows, account, t)
    decreases n - k
  {
    if k < n {
      if Due(rows[k], now) {
        ClosingKeepsTail(rows, now, k, account, t);
        ExpiryKeepsTail(Close(rows, k, ExpiryOf(k), now), now, k + 1, n, account, t);
      } else {
        ExpiryKeepsTail(rows, now, k + 1, n, account, t);
      }
    }
  }

  lemma CreditKeepsDomination(rows: seq<Entry>, account: nat, pool: seq<Lot>, now: int,
                              amount: nat, expires: Option<int>)
    requires Dominates(rows, account, pool, now)
    ensures Dominates(GrantTokens(rows, account, amount, expires, NoRef, now).rows, account,
                      pool + [Lot(expires, amount)], now)
  {
    forall t | now <= t
      ensures PoolTail(pool + [Lot(expires, amount)], t)
              <= Tail(GrantTokens(rows, account, amount, expires, NoRef, now).rows, account, t)
    {
      SumAppend(pool, Lot(expires, amount), LotFn(t));
      var e := Entry(account, Grant, amount, amount, expires, now, NoRef);
      SumAppend(rows, e, TailFn(account, t));
      assert PoolTail(pool, t) <= Tail(rows, account, t);
      assert amount > 0 ==> GrantTokens(rows, account, amount, expires, NoRef, now).rows == rows + [e];
    }
  }

  // A debit reference the table has not seen on this account.
  ghost predicate Unused(rows: seq<Entry>, account: nat, ref: Ref) { Find(rows, account, Debit, ref).None? }

  lemma StepKeepsDomination(rows: seq<Entry>, account: nat, pool: seq<Lot>, pool': seq<Lot>, at: At)
    requires Inv(rows) && Full(pool) && Dominates(rows, account, pool, at.time) && PoolStep(pool, pool', at)
    requires at.event.Demand? ==> Unused(rows, account, at.event.ref)
    ensures Serve(rows, account, at).outcome != Rejected(InsufficientTokens)
    ensures Full(pool') && Dominates(Serve(rows, account, at).rows, account, pool', at.time)
  {
    var now := at.time;
    match at.event
    case CreditArrives(amount, expires) => CreditKeepsDomination(rows, account, pool, now, amount, expires);
    case Sweep =>
      forall t | now <= t ensures PoolTail(pool', t) <= Tail(ExpireTokens(rows, now), account, t) {
        SumPointwise(pool', pool, LotFn(t));
        ExpiryKeepsTail(rows, now, 0, |rows|, account, t);
      }
    case Demand(amount, ref) =>
      AllocationLeavesNoMore(pool, pool', now, amount, now);
      SumPrefix(pool', |pool'|, LotFn(now));
      forall t | now <= t ensures PoolTail(pool', t) <= Tail(Serve(rows, account, at).rows, account, t) {
        AllocationLeavesNoMore(pool, pool', now, amount, t);
        if Serve(rows, account, at).outcome.Done? { DebitTail(rows, account, amount, ref, now, t); }
      }
  }

  // ----- The theorem -----

  // Time moves on, and every debit asks for something under a reference of its own.
  ghost predicate Timeline(timeline: seq<At>) {
    && (forall i :: 0 <= i < |timeline| && timeline[i].event.Demand? ==>
          0 < timeline[i].event.amount && !timeline[i].event.ref.NoRef?)
    && (forall i, j :: 0 <= i < j < |timeline| ==> timeline[i].time <= timeline[j].time)
    && (forall i, j :: 0 <= i < j < |timeline| && timeline[i].event.Demand? && timeline[j].event.Demand? ==>
          timeline[i].event.ref != timeline[j].event.ref)
  }

  // The entries keep what they were created with, and the new one, if any, is not a debit under the reference.
  lemma StillUnused(rows: seq<Entry>, later: seq<Entry>, account: nat, ref: Ref)
    requires Unused(rows, account, ref) && |rows| <= |later| <= |rows| + 1
    requires forall i :: 0 <= i < |rows| ==> later[i] == rows[i].(remaining := later[i].remaining)
    requires |later| > |rows| ==> !Matches(later[|rows|], account, Debit, ref)
    ensures Unused(later, account, ref)
  {
    forall i | 0 <= i < |later| ensures !Matches(later[i], account, Debit, ref) {
      if i < |rows| { assert !Matches(rows[i], account, Debit, ref); }
    }
  }

  lemma ServingUsesOneReference(rows: seq<Entry>, account: nat, at: At, ref: Ref)
    requires Inv(rows) && Unused(rows, account, ref) && (at.event.Demand? ==> at.event.ref != ref)
    ensures Inv(Serve(rows, account, at).rows) && Unused(Serve(rows, account, at).rows, account, ref)
  {
    ServingKeepsInv(rows, account, at);
    if at.event.Sweep? {
      ExpiryAddsNoDebit(rows, at.time, 0, |rows|, account, ref);
    } else {
      StillUnused(rows, Serve(rows, account, at).rows, account, ref);
    }
  }

  lemma {:induction false} ExpiryAddsNoDebit(rows: seq<Entry>, now: int, k: nat, n: nat, account: nat, ref: Ref)
    requires Inv(rows) && k <= n <= |rows| && Unused(rows, account, ref)
    ensures Unused(ExpireFrom(rows, now, k, n), account, ref)
    decreases n - k
  {
    if k < n {
      if Due(rows[k], now) {
        CloseKeepsInv(rows, k, ExpiryOf(k), now);
        StillUnused(rows, Close(rows, k, ExpiryOf(k), now), account, ref);
        ExpiryAddsNoDebit(Close(rows, k, ExpiryOf(k), now), now, k + 1, n, account, ref);
      } else {
        ExpiryAddsNoDebit(rows, now, k + 1, n, account, ref);
      }
    }
  }

  lemma {:induction false} DominationServes(rows: seq<Entry>, account: nat, timeline: seq<At>, pools: seq<seq<Lot>>)
    requires Timeline(timeline) && |pools| == |timeline| + 1
    requires forall i :: 0 <= i < |timeline| ==> PoolStep(pools[i], pools[i + 1], timeline[i])
    requires Inv(rows) && Full(pools[0])
    requires timeline != [] ==> Dominates(rows, account, pools[0], timeline[0].time)
    requires forall i :: 0 <= i < |timeline| && timeline[i].event.Demand? ==>
               Unused(rows, account, timeline[i].event.ref)
    ensures ServesAll(rows, account, timeline)
    decreases |timeline|
  {
    if timeline != [] {
      var at, rest := timeline[0], timeline[1..];
      var next := Serve(rows, account, at).rows;
      assert PoolStep(pools[0], pools[1], timeline[0]);
      StepKeepsDomination(rows, account, pools[0], pools[1], at);
      forall i | 0 <= i < |rest| && rest[i].event.Demand? ensures Unused(next, account, rest[i].event.ref) {
        assert rest[i] == timeline[i + 1];
        ServingUsesOneReference(rows, account, at, rest[i].event.ref);
      }
      ServingKeepsInv(rows, account, at);
      assert forall i :: 0 <= i < |rest| ==> rest[i] == timeline[i + 1] && pools[1..][i] == pools[i + 1];
      assert rest != [] ==> at.time <= rest[0].time;
      DominationServes(next, account, rest, pools[1..]);
    }
  }

  lemma ServingKeepsInv(rows: seq<Entry>, account: nat, at: At)
    requires Inv(rows)
    ensures Inv(Serve(rows, account, at).rows)
  {
    match at.event
    case CreditArrives(amount, expires) => StepKeepsInv(rows, OpGrant(account, amount, expires, NoRef), at.time);
    case Demand(amount, r) => DebitKeepsInv(rows, account, amount, r, at.time);
    case Sweep => ExpireKeepsInv(rows, at.time, 0, |rows|);
  }

  /** If any choice of which unexpired credits to spend serves every debit of a timeline, so does the ledger. */
  lemma EarliestExpiryFirstIsOptimal(account: nat, timeline: seq<At>, pools: seq<seq<Lot>>)
    requires Timeline(timeline) && SomeAllocatorServes(timeline, pools)
    ensures ServesAll([], account, timeline)
  {
    assert Inv([]);
    DominationServes([], account, timeline, pools);
  }
}
