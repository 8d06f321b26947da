/** What the provider's events about purchases credit, and what a withdrawal takes back of it. */
module PurchaseEffects {
  import opened Options
  import opened LedgerEntries
  import opened LedgerEffects
  import opened WithdrawalFinality

  /** An update of a subscription grants the period's allowance, once per period, to the account it names, until the
      allowance ends; and nothing once the subscription is withdrawn. */
  lemma AllowanceIsGrantedOnce(s: Shop, sid: string, account: nat, allowance: Option<Allowance>, now: int,
                               other: nat, t: int)
    ensures var s' := Apply(s, SubscriptionUpdate(sid, account, allowance), now);
            && s' == s.(rows := s'.rows)
            && Balance(s'.rows, other, t) == Balance(s.rows, other, t)
               + if allowance.Some? && !(sid in s.purchases && s.purchases[sid].status == Withdrawn)
                    && 0 < allowance.value.amount
                    && !IsThere(s.rows, account, Grant, PeriodOf(sid, allowance.value.start)) && other == account
                    && (allowance.value.expires == None || t < allowance.value.expires.value)
                 then allowance.value.amount else 0
  {
    if allowance.Some? {
      var a := allowance.value;
      GrantLastsUntilItExpires(s.rows, account, a.amount, a.expires, PeriodOf(sid, a.start), now, other, t);
    }
  }

  lemma PackageRows(s: Shop, payment: string, account: nat, tokens: int, ends: int, now: int)
    ensures var s' := Apply(s, TeamCheckout(payment, account, tokens, ends), now);
            && s'.packages == (if payment in s.packages then s.packages else s.packages[payment := account])
            && (s'.rows == if payment !in s.packages && 0 < tokens
                           then GrantTokens(s.rows, account, tokens, Some(ends), PackageOf(payment), now).rows
                           else s.rows)
            && (payment !in s.packages && 0 < tokens && payment !in s.purchases ==>
                  s'.purchases == s.purchases[payment := Fresh(payment, TeamPackage, account, PackageOf(payment))])
  {
  }

  /** A package's tokens are granted with its first event, until it ends. */
  lemma PackageIsGrantedOnce(s: Shop, payment: string, account: nat, tokens: int, ends: int, now: int,
                             other: nat, t: int)
    ensures var s' := Apply(s, TeamCheckout(payment, account, tokens, ends), now);
            && s'.packages == (if payment in s.packages then s.packages else s.packages[payment := account])
            && Balance(s'.rows, other, t) == Balance(s.rows, other, t)
               + if payment !in s.packages && 0 < tokens && !IsThere(s.rows, account, Grant, PackageOf(payment))
                    && other == account && t < ends
                 then tokens else 0
  {
    PackageRows(s, payment, account, tokens, ends, now);
    GrantLastsUntilItExpires(s.rows, account, tokens, Some(ends), PackageOf(payment), now, other, t);
  }

  lemma CheckoutRows(s: Shop, o: string, session: string, account: nat, tokens: int, now: int)
    ensures var s', u := Apply(s, TokenCheckout(o, session, account, tokens), now),
                         CreditPurchase(s.rows, account, tokens, CheckoutOf(session), now);
            && s'.rows == u.rows
            && (u.outcome.Done? && o !in s.purchases ==>
                  s'.purchases == s.purchases[o := Fresh(o, TokenPackage, account, CheckoutOf(session))])
  {
  }

  // A purchase as it is recorded.
  function Fresh(o: string, kind: ProductKind, account: nat, ref: Ref): Purchase {
    Purchase(kind, Withdrawal(o, {ref}, {account}), Active, 0, 0, false)
  }

  /** Bought tokens are credited once per checkout, for good. */
  lemma CheckoutIsCreditedOnce(s: Shop, o: string, session: string, account: nat, tokens: int, now: int,
                               other: nat, t: int)
    ensures var s' := Apply(s, TokenCheckout(o, session, account, tokens), now);
            Balance(s'.rows, other, t) == Balance(s.rows, other, t)
            + if 0 < tokens && !IsThere(s.rows, account, Bought, CheckoutOf(session)) && other == account
              then tokens else 0
  {
    CheckoutRows(s, o, session, account, tokens, now);
    PurchaseNeverExpires(s.rows, account, tokens, CheckoutOf(session), now, other, t);
  }

  // The purchase is new, active, and its withdrawal will take back the entry with this kind and reference.
  ghost predicate TakesBack(s: Shop, s': Shop, o: string, kind: ProductKind, account: nat, credit: Kind, ref: Ref) {
    && o in s'.purchases && s'.purchases - {o} == s.purchases - {o}
    && var p := s'.purchases[o];
       && p.kind == kind && p.status == Active && p.refundCents == 0 && p.completed == 0 && !p.cleared
       && p.grants.refs == {ref} && p.grants.accounts == {account}
       && HasCovered(s'.rows, p.grants, credit, ref)
  }

  ghost predicate HasCovered(rows: seq<Entry>, w: Withdrawal, kind: Kind, ref: Ref) {
    exists i :: 0 <= i < |rows| && rows[i].kind == kind && rows[i].ref == ref && IsCovered(rows[i], w)
  }

  lemma SubscriptionRows(s: Shop, o: string, account: nat, a: Allowance, now: int)
    requires o !in s.purchases
    ensures var s' := Apply(s, SubscriptionCheckout(o, account, Some(a), Some(a.start), true), now);
            && s'.rows == GrantTokens(s.rows, account, a.amount, a.expires, PeriodOf(o, a.start), now).rows
            && s'.purchases == s.purchases[o := Fresh(o, Subscription, account, PeriodOf(o, a.start))]
  {
  }

  /** What was credited by the event that records a purchase is what its withdrawal takes back: the allowance, */
  lemma SubscriptionTakesBack(s: Shop, o: string, account: nat, a: Allowance, now: int)
    requires o !in s.purchases && 0 < a.amount
    ensures TakesBack(s, Apply(s, SubscriptionCheckout(o, account, Some(a), Some(a.start), true), now),
                      o, Subscription, account, Grant, PeriodOf(o, a.start))
  {
    GrantLastsUntilItExpires(s.rows, account, a.amount, a.expires, PeriodOf(o, a.start), now, 0, 0);
    CreditIsCovered(s.rows, GrantTokens(s.rows, account, a.amount, a.expires, PeriodOf(o, a.start), now),
                    o, account, Grant, PeriodOf(o, a.start));
    SubscriptionRows(s, o, account, a, now);
    NewPurchaseTakesBack(s, Apply(s, SubscriptionCheckout(o, account, Some(a), Some(a.start), true), now),
                         o, Subscription, account, Grant, PeriodOf(o, a.start));
  }

  /** the package's tokens, */
  lemma PackageTakesBack(s: Shop, o: string, account: nat, tokens: int, ends: int, now: int)
    requires o !in s.purchases && o !in s.packages && 0 < tokens
    ensures TakesBack(s, Apply(s, TeamCheckout(o, account, tokens, ends), now),
                      o, TeamPackage, account, Grant, PackageOf(o))
  {
    PackageRows(s, o, account, tokens, ends, now);
    GrantLastsUntilItExpires(s.rows, account, tokens, Some(ends), PackageOf(o), now, 0, 0);
    CreditIsCovered(s.rows, GrantTokens(s.rows, account, tokens, Some(ends), PackageOf(o), now),
                    o, account, Grant, PackageOf(o));
    NewPurchaseTakesBack(s, Apply(s, TeamCheckout(o, account, tokens, ends), now),
                         o, TeamPackage, account, Grant, PackageOf(o));
  }

  /** or the bought tokens. */
  lemma CheckoutTakesBack(s: Shop, o: string, session: string, account: nat, tokens: int, now: int)
    requires o !in s.purchases && 0 < tokens
    ensures TakesBack(s, Apply(s, TokenCheckout(o, session, account, tokens), now),
                      o, TokenPackage, account, Bought, CheckoutOf(session))
  {
    CheckoutRows(s, o, session, account, tokens, now);
    PurchaseNeverExpires(s.rows, account, tokens, CheckoutOf(session), now, 0, 0);
    CreditIsCovered(s.rows, CreditPurchase(s.rows, account, tokens, CheckoutOf(session), now),
                    o, account, Bought, CheckoutOf(session));
    NewPurchaseTakesBack(s, Apply(s, TokenCheckout(o, session, account, tokens), now),
                         o, TokenPackage, account, Bought, CheckoutOf(session));
  }

  lemma NewPurchaseTakesBack(s: Shop, s': Shop, o: string, kind: ProductKind, account: nat, credit: Kind, ref: Ref)
    requires o !in s.purchases && s'.purchases == s.purchases[o := Fresh(o, kind, account, ref)]
    requires HasCovered(s'.rows, Withdrawal(o, {ref}, {account}), credit, ref)
    ensures TakesBack(s, s', o, kind, account, credit, ref)
  {
  }

  lemma CreditIsCovered(rows: seq<Entry>, u: Update, name: string, account: nat, kind: Kind, ref: Ref)
    requires Credited(rows, u, account, kind, ref) && (kind == Grant || kind == Bought)
    ensures HasCovered(u.rows, Withdrawal(name, {ref}, {account}), kind, ref)
  {
    assert u.rows[u.outcome.pk].kind == kind;
  }
}
