/** A withdrawal happens at most once and is final: whatever provider events follow, in any order and multiplicity, the
    purchase's tokens neither become spendable again nor are granted anew. */
module WithdrawalFinality {
  import opened Options
  import opened LedgerEntries
  import opened LedgerInvariants
  import TokenLedger

  datatype Status = Active | Withdrawn

  // `completed` counts executions of the completion routine, `cleared` records that the tokens were taken back.
  datatype Purchase = Purchase(kind: ProductKind, grants: Withdrawal, status: Status, refundCents: int,
                               completed: nat, cleared: bool)

  // Purchases by provider object id, team packages by payment, and the token ledger.
  datatype Shop = Shop(rows: seq<Entry>, purchases: map<string, Purchase>, packages: map<string, nat>)

  // An allowance granted for a paid period.
  datatype Allowance = Allowance(amount: int, start: int, expires: Option<int>)

  datatype Event =
    | SubscriptionUpdate(sid: string, account: nat, allowance: Option<Allowance>)
    | SubscriptionCheckout(sid: string, account: nat, allowance: Option<Allowance>, period: Option<int>, paid: bool)
    | TeamCheckout(payment: string, account: nat, tokens: int, ends: int)
    | TokenCheckout(bought: string, session: string, account: nat, tokens: int)
    | RefundReported(bought: string, cents: int)             // a validated withdrawal refund of the provider
    | WithdrawRequest(bought: string, eligible: bool, cents: int)
    | ContractWithdrawal(bought: string)                      // the contract path marks the purchase first ...
    | ContractClearance(bought: string, further: set<Ref>)    // ... and takes the tokens back afterwards
    | LedgerUse(op: Op)                                        // debits, reversals, expiry, and the app's own credits

  // ----- Transitions -----

  predicate IsWithdrawn(s: Shop, o: string) { o in s.purchases && s.purchases[o].status.Withdrawn? }

  function Upsert(s: Shop, sid: string, account: nat, allowance: Option<Allowance>, now: int): Shop {
    if IsWithdrawn(s, sid) || allowance.None? then s
    else
      var a := allowance.value;
      s.(rows := GrantTokens(s.rows, account, a.amount, a.expires, PeriodOf(sid, a.start), now).rows)
  }

  function CreatePurchase(s: Shop, o: string, kind: ProductKind, refs: set<Ref>, accounts: set<nat>): Shop {
    if o in s.purchases then s
    else s.(purchases := s.purchases[o := Purchase(kind, Withdrawal(o, refs, accounts), Active, 0, 0, false)])
  }

  /** The completion routine: under the purchase's lock, only an active purchase completes. */
  function Complete(s: Shop, o: string, cents: int, now: int): Shop {
    if o !in s.purchases || s.purchases[o].status != Active then s
    else
      var p := s.purchases[o];
      s.(rows := ZeroForWithdrawal(s.rows, p.grants, now),
         purchases := s.purchases[o := p.(status := Withdrawn, refundCents := cents,
                                          completed := p.completed + 1, cleared := true)])
  }

  predicate OwnUse(op: Op) {
    match op
    case OpGrant(_, _, _, ref) => ref.NoRef? || ref.Named?
    case OpPurchase(_, _, ref) => ref.NoRef? || ref.Named?
    case OpDebit(_, _, _) => true
    case OpReverse(_, _, _) => true
    case OpExpire => true
    case OpWithdraw(_) => false
  }

  predicate Enabled(s: Shop, e: Event) { e.LedgerUse? ==> OwnUse(e.op) }

  function Apply(s: Shop, e: Event, now: int): Shop
    requires Enabled(s, e)
  {
    match e
    case SubscriptionUpdate(sid, account, allowance) => Upsert(s, sid, account, allowance, now)
    case SubscriptionCheckout(sid, account, allowance, period, paid) =>
      var u := Upsert(s, sid, account, allowance, now);
      var refs := if period.Some? then {PeriodOf(sid, period.value)} else {};
      if paid then CreatePurchase(u, sid, Subscription, refs, {account}) else u
    case TeamCheckout(payment, account, tokens, ends) =>
      var u := if payment in s.packages then s
               else s.(packages := s.packages[payment := account],
                       rows := if tokens > 0
                               then GrantTokens(s.rows, account, tokens, Some(ends), PackageOf(payment), now).rows
                               else s.rows);
      CreatePurchase(u, payment, TeamPackage, if tokens > 0 then {PackageOf(payment)} else {}, {u.packages[payment]})
    case TokenCheckout(o, session, account, tokens) =>
      var u := CreditPurchase(s.rows, account, tokens, CheckoutOf(session), now);
      if u.outcome.Rejected? then s  // the event's transaction is rolled back
      else CreatePurchase(s.(rows := u.rows), o, TokenPackage, {CheckoutOf(session)}, {account})
    case RefundReported(o, cents) => Complete(s, o, cents, now)
    case WithdrawRequest(o, eligible, cents) => if eligible then Complete(s, o, cents, now) else s
    case ContractWithdrawal(o) =>
      if o in s.purchases then s.(purchases := s.purchases[o := s.purchases[o].(status := Withdrawn)]) else s
    case ContractClearance(o, further) =>
      if IsWithdrawn(s, o) then
        var p := s.purchases[o];
        s.(rows := ZeroForWithdrawal(s.rows, p.grants.(refs := p.grants.refs + further), now),
           purchases := s.purchases[o := p.(cleared := true)])
      else s
    case LedgerUse(op) => s.(rows := Run1(s.rows, op, now))
  }

  function Run(s: Shop, events: seq<(Event, int)>): Option<Shop>
    decreases |events|
  {
    if events == [] then Some(s)
    else if Enabled(s, events[0].0) then Run(Apply(s, events[0].0, events[0].1), events[1..])
    else None
  }

  const EMPTY := Shop([], map[], map[])

  // ----- Invariants -----

  /** Which references a purchase can have, and what already exists for it. */
  ghost predicate SoundPurchase(s: Shop, o: string)
    requires o in s.purchases
  {
    var p := s.purchases[o];
    && p.completed <= (if p.status.Withdrawn? then 1 else 0)
    && (p.completed > 0 ==> p.cleared)
    && (p.cleared ==> p.status.Withdrawn?)
    && (forall r :: r in p.grants.refs ==>
          match p.kind
          case Subscription => r.PeriodOf? && r.subscription == o
          case TeamPackage => r == PackageOf(o) && o in s.packages
          case TokenPackage =>
            r.CheckoutOf? && forall a :: a in p.grants.accounts ==> Find(s.rows, a, Bought, r).Some?)
  }

  ghost predicate Cleared(rows: seq<Entry>, w: Withdrawal) {
    forall i :: 0 <= i < |rows| && Covered(rows[i], w) ==> rows[i].remaining == 0
  }

  ghost predicate Inv(s: Shop) {
    && LedgerInvariants.Inv(s.rows)
    && (forall o :: o in s.purchases ==> SoundPurchase(s, o))
    && (forall o :: o in s.purchases && s.purchases[o].cleared ==> Cleared(s.rows, s.purchases[o].grants))
  }

  /** Nothing that happens to a cleared purchase's tokens later adds one or raises one. */
  ghost predicate NoneAdded(rows: seq<Entry>, later: seq<Entry>, w: Withdrawal) {
    Extends(rows, later) && forall i :: |rows| <= i < |later| ==> !Covered(later[i], w)
  }

  ghost predicate KeepsClearedTokens(s: Shop, s': Shop) {
    forall o :: o in s.purchases && s.purchases[o].cleared ==>
      NoneAdded(s.rows, s'.rows, s.purchases[o].grants)
  }

  lemma NoneAddedKeepsCleared(rows: seq<Entry>, later: seq<Entry>, w: Withdrawal)
    requires Cleared(rows, w) && NoneAdded(rows, later, w) && LedgerInvariants.Inv(later)
    ensures Cleared(later, w)
  {
    forall i | 0 <= i < |later| && Covered(later[i], w) ensures later[i].remaining == 0 {
      assert SoundEntry(later, i);
      assert i < |rows| ==> Covered(rows[i], w);
    }
  }

  // ----- Closing takes everything back and adds no credit -----

  lemma {:induction false} WithdrawalClears(rows: seq<Entry>, w: Withdrawal, now: int, k: nat, n: nat)
    requires LedgerInvariants.Inv(rows) && k <= n <= |rows|
    requires forall i :: 0 <= i < k && Covered(rows[i], w) ==> rows[i].remaining == 0
    requires forall i :: n <= i < |rows| ==> !Covered(rows[i], w)
    ensures Cleared(WithdrawFrom(rows, w, now, k, n), w)
    decreases n - k
  {
    if k < n {
      assert SoundEntry(rows, k);
      if Covered(rows[k], w) && rows[k].remaining > 0 {
        CloseKeepsInv(rows, k, WithdrawalOf(w.name, k), now);
        WithdrawalClears(Close(rows, k, WithdrawalOf(w.name, k), now), w, now, k + 1, n);
      } else {
        WithdrawalClears(rows, w, now, k + 1, n);
      }
    }
  }

  // Entries that an operation appends and that are not of `kind` grant or purchase cover nothing.
  ghost predicate OnlyClosings(rows: seq<Entry>, later: seq<Entry>) {
    Extends(rows, later) && forall i :: |rows| <= i < |later| ==> later[i].kind.Expiry?
  }

  lemma {:induction false} WithdrawalAddsClosings(rows: seq<Entry>, w: Withdrawal, now: int, k: nat, n: nat)
    requires LedgerInvariants.Inv(rows) && k <= n <= |rows|
    ensures OnlyClosings(rows, WithdrawFrom(rows, w, now, k, n))
    decreases n - k
  {
    if k < n {
      if Covered(rows[k], w) && rows[k].remaining > 0 {
        CloseKeepsInv(rows, k, WithdrawalOf(w.name, k), now);
        WithdrawalAddsClosings(Close(rows, k, WithdrawalOf(w.name, k), now), w, now, k + 1, n);
      } else {
        WithdrawalAddsClosings(rows, w, now, k + 1, n);
      }
    }
  }

  lemma {:induction false} ExpiryAddsClosings(rows: seq<Entry>, now: int, k: nat, n: nat)
    requires LedgerInvariants.Inv(rows) && k <= n <= |rows|
    ensures OnlyClosings(rows, ExpireFrom(rows, now, k, n))
    decreases n - k
  {
    if k < n {
      if Due(rows[k], now) {
        CloseKeepsInv(rows, k, ExpiryOf(k), now);
        ExpiryAddsClosings(Close(rows, k, ExpiryOf(k), now), now, k + 1, n);
      } else {
        ExpiryAddsClosings(rows, now, k + 1, n);
      }
    }
  }

  // ----- Preservation -----

  lemma PurchaseStaysSound(s: Shop, s': Shop, o: string)
    requires o in s.purchases && SoundPurchase(s, o)
    requires o in s'.purchases && s'.purchases[o] == s.purchases[o]
    requires Extends(s.rows, s'.rows) && s.packages.Keys <= s'.packages.Keys
    ensures SoundPurchase(s', o)
  {
    var p := s.purchases[o];
    if p.kind.TokenPackage? {
      forall r, a | r in p.grants.refs && a in p.grants.accounts ensures Find(s'.rows, a, Bought, r).Some? {
        FindIsStable(s.rows, s'.rows, a, Bought, r);
      }
    }
  }

  // The ledger moved on without touching purchases.
  lemma LedgerStepKeepsInv(s: Shop, s': Shop)
    requires Inv(s) && s'.purchases == s.purchases && s.packages.Keys <= s'.packages.Keys
    requires LedgerInvariants.Inv(s'.rows) && Extends(s.rows, s'.rows) && KeepsClearedTokens(s, s')
    ensures Inv(s')
  {
    forall o | o in s'.purchases ensures SoundPurchase(s', o) { PurchaseStaysSound(s, s', o); }
    forall o | o in s'.purchases && s'.purchases[o].cleared ensures Cleared(s'.rows, s'.purchases[o].grants) {
      NoneAddedKeepsCleared(s.rows, s'.rows, s'.purchases[o].grants);
    }
  }

  lemma UpsertKeepsInv(s: Shop, sid: string, account: nat, allowance: Option<Allowance>, now: int)
    requires Inv(s)
    ensures Inv(Upsert(s, sid, account, allowance, now))
            && KeepsClearedTokens(s, Upsert(s, sid, account, allowance, now))
  {
    var s' := Upsert(s, sid, account, allowance, now);
    if !IsWithdrawn(s, sid) && allowance.Some? {
      var a := allowance.value;
      StepKeepsInv(s.rows, OpGrant(account, a.amount, a.expires, PeriodOf(sid, a.start)), now);
      forall o | o in s.purchases && s.purchases[o].cleared ensures NoneAdded(s.rows, s'.rows, s.purchases[o].grants) {
        assert SoundPurchase(s, o);
      }
      LedgerStepKeepsInv(s, s');
    }
  }

  lemma CreateKeepsInv(s: Shop, o: string, kind: ProductKind, refs: set<Ref>, accounts: set<nat>)
    requires Inv(s)
    requires forall r :: r in refs ==>
               match kind
               case Subscription => r.PeriodOf? && r.subscription == o
               case TeamPackage => r == PackageOf(o) && o in s.packages
               case TokenPackage => r.CheckoutOf? && forall a :: a in accounts ==> Find(s.rows, a, Bought, r).Some?
    ensures Inv(CreatePurchase(s, o, kind, refs, accounts))
  {
    var s' := CreatePurchase(s, o, kind, refs, accounts);
    forall x | x in s'.purchases ensures SoundPurchase(s', x) {
      if x in s.purchases { PurchaseStaysSound(s, s', x); }
    }
  }

  // A new team package and its tokens, whose reference no cleared purchase covers.
  lemma PackageKeepsInv(s: Shop, u: Shop, e: Event, now: int)
    requires Inv(s) && e.TeamCheckout? && e.payment !in s.packages
    requires u == s.(packages := s.packages[e.payment := e.account],
                     rows := if e.tokens > 0
                             then GrantTokens(s.rows, e.account, e.tokens, Some(e.ends), PackageOf(e.payment), now).rows
                             else s.rows)
    ensures Inv(u) && KeepsClearedTokens(s, u)
  {
    StepKeepsInv(s.rows, OpGrant(e.account, e.tokens, Some(e.ends), PackageOf(e.payment)), now);
    forall o | o in s.purchases && s.purchases[o].cleared ensures NoneAdded(s.rows, u.rows, s.purchases[o].grants) {
      assert SoundPurchase(s, o);
    }
    LedgerStepKeepsInv(s, u);
  }

  lemma TeamKeepsInv(s: Shop, e: Event, now: int)
    requires Inv(s) && e.TeamCheckout?
    ensures Inv(Apply(s, e, now)) && KeepsClearedTokens(s, Apply(s, e, now))
  {
    var ref := PackageOf(e.payment);
    if e.payment in s.packages {
      CreateKeepsInv(s, e.payment, TeamPackage, if e.tokens > 0 then {ref} else {}, {s.packages[e.payment]});
    } else {
      var u := s.(packages := s.packages[e.payment := e.account],
                  rows := if e.tokens > 0
                          then GrantTokens(s.rows, e.account, e.tokens, Some(e.ends), ref, now).rows else s.rows);
      PackageKeepsInv(s, u, e, now);
      CreateKeepsInv(u, e.payment, TeamPackage, if e.tokens > 0 then {ref} else {}, {e.account});
    }
  }

  lemma CheckoutKeepsInv(s: Shop, e: Event, now: int)
    requires Inv(s) && e.TokenCheckout?
             && CreditPurchase(s.rows, e.account, e.tokens, CheckoutOf(e.session), now).outcome.Done?
    ensures var rows := CreditPurchase(s.rows, e.account, e.tokens, CheckoutOf(e.session), now).rows;
            && Inv(s.(rows := rows)) && KeepsClearedTokens(s, s.(rows := rows))
            && Find(rows, e.account, Bought, CheckoutOf(e.session)).Some?
  {
    var ref := CheckoutOf(e.session);
    var s1 := s.(rows := CreditPurchase(s.rows, e.account, e.tokens, ref, now).rows);
    StepKeepsInv(s.rows, OpPurchase(e.account, e.tokens, ref), now);
    forall o | o in s.purchases && s.purchases[o].cleared ensures NoneAdded(s.rows, s1.rows, s.purchases[o].grants) {
      assert SoundPurchase(s, o);
    }
    LedgerStepKeepsInv(s, s1);
    PurchaseIsFound(s.rows, e.account, e.tokens, ref, now);
  }

  lemma PurchaseIsFound(rows: seq<Entry>, account: nat, tokens: int, ref: Ref, now: int)
    requires CreditPurchase(rows, account, tokens, ref, now).outcome.Done?
    ensures Find(CreditPurchase(rows, account, tokens, ref, now).rows, account, Bought, ref).Some?
  {
    var later := CreditPurchase(rows, account, tokens, ref, now).rows;
    if Find(rows, account, Bought, ref).None? { assert Matches(later[|rows|], account, Bought, ref); }
  }

  lemma TokenKeepsInv(s: Shop, e: Event, now: int)
    requires Inv(s) && e.TokenCheckout?
    ensures Inv(Apply(s, e, now)) && KeepsClearedTokens(s, Apply(s, e, now))
  {
    var ref := CheckoutOf(e.session);
    var u := CreditPurchase(s.rows, e.account, e.tokens, ref, now);
    if u.outcome.Done? {
      CheckoutKeepsInv(s, e, now);
      CreateKeepsInv(s.(rows := u.rows), e.bought, TokenPackage, {ref}, {e.account});
    }
  }

  lemma CompleteKeepsInv(s: Shop, o: string, cents: int, now: int)
    requires Inv(s)
    ensures Inv(Complete(s, o, cents, now)) && KeepsClearedTokens(s, Complete(s, o, cents, now))
  {
    if o in s.purchases && s.purchases[o].status.Active? {
      ClearingKeepsInv(s, o, s.purchases[o].grants, s.purchases[o].completed + 1, cents, now);
    }
  }

  /** Taking back at least the purchase's own tokens. */
  lemma ClearingKeepsInv(s: Shop, o: string, w: Withdrawal, completed: nat, cents: int, now: int)
    requires Inv(s) && o in s.purchases && completed <= 1
    requires s.purchases[o].grants.refs <= w.refs && s.purchases[o].grants.accounts == w.accounts
    ensures var p := s.purchases[o].(status := Withdrawn, refundCents := cents,
                                     completed := completed, cleared := true);
            var s' := s.(rows := ZeroForWithdrawal(s.rows, w, now), purchases := s.purchases[o := p]);
            Inv(s') && KeepsClearedTokens(s, s')
  {
    var p := s.purchases[o].(status := Withdrawn, refundCents := cents, completed := completed, cleared := true);
    var s1 := s.(rows := ZeroForWithdrawal(s.rows, w, now));
    var s' := s1.(purchases := s.purchases[o := p]);
    WithdrawKeepsInv(s.rows, w, now, 0, |s.rows|);
    WithdrawalAddsClosings(s.rows, w, now, 0, |s.rows|);
    WithdrawalClears(s.rows, w, now, 0, |s.rows|);
    LedgerStepKeepsInv(s, s1);
    forall x | x in s'.purchases ensures SoundPurchase(s', x) {
      assert SoundPurchase(s1, x);
      if x != o { PurchaseStaysSound(s1, s', x); }
    }
  }

  lemma UseKeepsInv(s: Shop, op: Op, now: int)
    requires Inv(s) && OwnUse(op)
    ensures Inv(s.(rows := Run1(s.rows, op, now))) && KeepsClearedTokens(s, s.(rows := Run1(s.rows, op, now)))
  {
    var s' := s.(rows := Run1(s.rows, op, now));
    StepKeepsInv(s.rows, op, now);
    if op.OpExpire? { ExpiryAddsClosings(s.rows, now, 0, |s.rows|); }
    forall o | o in s.purchases && s.purchases[o].cleared ensures NoneAdded(s.rows, s'.rows, s.purchases[o].grants) {
      assert SoundPurchase(s, o);
    }
    LedgerStepKeepsInv(s, s');
  }

  lemma StepKeepsShop(s: Shop, e: Event, now: int)
    requires Inv(s) && Enabled(s, e)
    ensures Inv(Apply(s, e, now)) && KeepsClearedTokens(s, Apply(s, e, now))
  {
    var s' := Apply(s, e, now);
    match e
    case SubscriptionUpdate(sid, account, allowance) => UpsertKeepsInv(s, sid, account, allowance, now);
    case SubscriptionCheckout(sid, account, allowance, period, paid) =>
      UpsertKeepsInv(s, sid, account, allowance, now);
      var refs := if period.Some? then {PeriodOf(sid, period.value)} else {};
      CreateKeepsInv(Upsert(s, sid, account, allowance, now), sid, Subscription, refs, {account});
    case TeamCheckout(_, _, _, _) => TeamKeepsInv(s, e, now);
    case TokenCheckout(_, _, _, _) => TokenKeepsInv(s, e, now);
    case RefundReported(o, cents) => CompleteKeepsInv(s, o, cents, now);
    case WithdrawRequest(o, eligible, cents) => CompleteKeepsInv(s, o, cents, now);
    case ContractWithdrawal(o) =>
      forall x | x in s'.purchases ensures SoundPurchase(s', x) {
        assert SoundPurchase(s, x);
        if x != o { PurchaseStaysSound(s, s', x); }
      }
    case ContractClearance(o, further) =>
      if IsWithdrawn(s, o) {
        var p := s.purchases[o];
        assert SoundPurchase(s, o);
        ClearingKeepsInv(s, o, p.grants.(refs := p.grants.refs + further), p.completed, p.refundCents, now);
      }
    case LedgerUse(op) => UseKeepsInv(s, op, now);
  }

  lemma StepKeepsPurchase(s: Shop, e: Event, now: int, o: string)
    requires Enabled(s, e) && o in s.purchases
    ensures var s' := Apply(s, e, now);
            && o in s'.purchases && s'.purchases[o].grants == s.purchases[o].grants
            && (s.purchases[o].cleared ==> s'.purchases[o].cleared)
            && (s.purchases[o].status.Withdrawn? ==>
                  s'.purchases[o].status.Withdrawn? && s'.purchases[o].completed == s.purchases[o].completed
                  && s'.purchases[o].refundCents == s.purchases[o].refundCents)
  {
  }

  // ----- Theorems -----

  lemma {:induction false} RunKeepsShop(s: Shop, events: seq<(Event, int)>, t: Shop)
    requires Inv(s) && Run(s, events) == Some(t)
    ensures Inv(t)
    decreases |events|
  {
    if events != [] {
      StepKeepsShop(s, events[0].0, events[0].1);
      RunKeepsShop(Apply(s, events[0].0, events[0].1), events[1..], t);
    }
  }

  /** Direct requests and refund events together complete a purchase at most once. */
  lemma CompletedAtMostOnce(events: seq<(Event, int)>, t: Shop, o: string)
    requires Run(EMPTY, events) == Some(t) && o in t.purchases
    ensures t.purchases[o].completed <= 1
  {
    RunKeepsShop(EMPTY, events, t);
    assert SoundPurchase(t, o);
  }

  // The event completes the purchase, for this many cents.
  ghost predicate Completes(e: Event, o: string, cents: int) {
    e == RefundReported(o, cents) || e == WithdrawRequest(o, true, cents)
  }

  /** A validated refund or an eligible request withdraws an active purchase, records its cents, and leaves its covered
      tokens empty; it changes no other purchase, and it does nothing to one that is not active. */
  lemma CompletionIsExact(s: Shop, e: Event, now: int, o: string, cents: int)
    requires LedgerInvariants.Inv(s.rows) && Completes(e, o, cents) && o in s.purchases
    ensures var p, s' := s.purchases[o], Apply(s, e, now);
            if p.status == Active then
              && o in s'.purchases && s'.purchases[o].status == Withdrawn && s'.purchases[o].refundCents == cents
              && s'.purchases[o].cleared && s'.purchases[o].completed == p.completed + 1
              && (s'.purchases[o].kind, s'.purchases[o].grants) == (p.kind, p.grants) && Cleared(s'.rows, p.grants)
              && s'.purchases - {o} == s.purchases - {o} && s'.packages == s.packages
            else s' == s
  {
    WithdrawalClears(s.rows, s.purchases[o].grants, now, 0, |s.rows|);
  }

  /** Without eligibility a request does nothing. The contract path withdraws first and clears afterwards, also the
      tokens under further references; it touches no purchase that is not withdrawn. */
  lemma OtherPathsAreExact(s: Shop, o: string, cents: int, further: set<Ref>, now: int)
    requires LedgerInvariants.Inv(s.rows)
    ensures Apply(s, WithdrawRequest(o, false, cents), now) == s
    ensures o in s.purchases ==>
              Apply(s, ContractWithdrawal(o), now)
              == s.(purchases := s.purchases[o := s.purchases[o].(status := Withdrawn)])
    ensures o !in s.purchases || s.purchases[o].status == Active ==> Apply(s, ContractClearance(o, further), now) == s
    ensures o in s.purchases && s.purchases[o].status == Withdrawn ==>
              var s', p := Apply(s, ContractClearance(o, further), now), s.purchases[o];
              && s'.purchases == s.purchases[o := p.(cleared := true)] && s'.packages == s.packages
              && Cleared(s'.rows, p.grants.(refs := p.grants.refs + further))
  {
    if o in s.purchases {
      var p := s.purchases[o];
      WithdrawalClears(s.rows, p.grants.(refs := p.grants.refs + further), now, 0, |s.rows|);
    }
  }

  /** What is refunded is fixed by the event that completes the purchase, whatever follows. */
  lemma RefundIsRecordedForGood(s: Shop, e: Event, now: int, o: string, cents: int, later: seq<(Event, int)>, t: Shop)
    requires Inv(s) && Completes(e, o, cents) && o in s.purchases && s.purchases[o].status == Active
    requires Run(Apply(s, e, now), later) == Some(t)
    ensures o in t.purchases && t.purchases[o].status == Withdrawn && t.purchases[o].refundCents == cents
  {
    CompletionIsExact(s, e, now, o, cents);
    WithdrawnStays(Apply(s, e, now), later, t, o);
  }

  lemma {:induction false} WithdrawnStays(s: Shop, events: seq<(Event, int)>, t: Shop, o: string)
    requires o in s.purchases && s.purchases[o].status.Withdrawn? && Run(s, events) == Some(t)
    ensures o in t.purchases && t.purchases[o].status.Withdrawn?
    ensures t.purchases[o].refundCents == s.purchases[o].refundCents
    decreases |events|
  {
    if events != [] {
      StepKeepsPurchase(s, events[0].0, events[0].1, o);
      WithdrawnStays(Apply(s, events[0].0, events[0].1), events[1..], t, o);
    }
  }

  /** Once a purchase's tokens were taken back, no later sequence of events adds an entry under its grant references on
      its owner's accounts, or makes an existing one hold anything again. */
  lemma {:induction false} WithdrawalIsFinal(s: Shop, events: seq<(Event, int)>, t: Shop, o: string)
    requires Inv(s) && o in s.purchases && s.purchases[o].cleared
    requires Run(s, events) == Some(t)
    ensures o in t.purchases && t.purchases[o].status.Withdrawn? && t.purchases[o].completed == s.purchases[o].completed
    ensures NoneAdded(s.rows, t.rows, s.purchases[o].grants) && Cleared(t.rows, s.purchases[o].grants)
    decreases |events|
  {
    assert SoundPurchase(s, o);
    if events != [] {
      var u := Apply(s, events[0].0, events[0].1);
      StepKeepsShop(s, events[0].0, events[0].1);
      StepKeepsPurchase(s, events[0].0, events[0].1, o);
      WithdrawalIsFinal(u, events[1..], t, o);
      ExtendsTransitive(s.rows, u.rows, t.rows);
      forall i | |s.rows| <= i < |t.rows| ensures !Covered(t.rows[i], s.purchases[o].grants) {
        assert i < |u.rows| ==> !Covered(u.rows[i], s.purchases[o].grants);
      }
    }
  }

  lemma WithdrawalIsFinalFromTheStart(before: seq<(Event, int)>, s: Shop, after: seq<(Event, int)>, t: Shop, o: string)
    requires Run(EMPTY, before) == Some(s) && o in s.purchases && s.purchases[o].cleared
    requires Run(s, after) == Some(t)
    ensures NoneAdded(s.rows, t.rows, s.purchases[o].grants) && Cleared(t.rows, s.purchases[o].grants)
  {
    RunKeepsShop(EMPTY, before, s);
    WithdrawalIsFinal(s, after, t, o);
  }

  /** The completion routine as it updates purchase and ledger in place. */
  class Desk {
    const ledger: TokenLedger.Ledger
    var purchases: map<string, Purchase>

    constructor (ledger: TokenLedger.Ledger)
      ensures this.ledger == ledger && purchases == map[]
    {
      this.ledger := ledger;
      purchases := map[];
    }

    function View(packages: map<string, nat>): Shop
      reads this, ledger
    {
      Shop(ledger.rows, purchases, packages)
    }

    method CompleteWithdrawal(o: string, cents: int, now: int) returns (already: bool)
      requires ledger.Valid() && o in purchases
      modifies this, ledger
      ensures ledger.Valid()
      ensures already == old(purchases)[o].status.Withdrawn?
      ensures View(map[]) == Complete(old(View(map[])), o, cents, now)
    {
      var p := purchases[o];
      if p.status != Active { return true; }
      ledger.ZeroForWithdrawal(p.grants, now);
      p := p.(status := Withdrawn, refundCents := cents);
      purchases := purchases[o := p.(completed := p.completed + 1, cleared := true)];
      return false;
    }
  }
}
