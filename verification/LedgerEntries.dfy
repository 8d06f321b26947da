/** The token ledger as a table of entries, and what each operation does to it. An entry's primary key is its index. */
module LedgerEntries {
  import opened Options
  import opened Sums

  datatype Kind = Grant | Bought | Debit | Expiry | Adjustment

  // References built by the billing code are kept structured; the texts they stand for are distinct.
  datatype Ref =
    | NoRef
    | Named(name: string)
    | PeriodOf(subscription: string, start: int)
    | PackageOf(payment: string)
    | CheckoutOf(session: string)
    | ExpiryOf(pk: nat)
    | WithdrawalOf(withdrawal: string, pk: nat)
    | ReversalOf(debit: Ref)

  // `remaining` of an entry that is not a credit is 0; `expires` None means never. Times are microseconds.
  datatype Entry =
    Entry(account: nat, kind: Kind, amount: int, remaining: int, expires: Option<int>, created: int, ref: Ref)

  datatype LedgerError =
    | AmountNotPositive | ReferenceRequired | DebitReferenceReused | InsufficientTokens | ReasonRequired | UnknownDebit

  datatype Outcome = Done(pk: nat) | Rejected(error: LedgerError)

  datatype Update = Update(rows: seq<Entry>, outcome: Outcome)

  predicate IsCredit(k: Kind) { k.Grant? || k.Bought? || k.Adjustment? }

  // Expires strictly after t.
  predicate Outlives(e: Entry, t: int) { e.expires.None? || e.expires.value > t }

  predicate Spendable(e: Entry, account: nat, now: int) {
    e.account == account && IsCredit(e.kind) && e.remaining > 0 && Outlives(e, now)
  }

  function AmountFn(account: nat): Entry -> int { (e: Entry) => if e.account == account then e.amount else 0 }

  function RemainingFn(account: nat): Entry -> int { (e: Entry) => if e.account == account then e.remaining else 0 }

  // Credit of the account that expires after t.
  function TailFn(account: nat, t: int): Entry -> int {
    (e: Entry) => if e.account == account && IsCredit(e.kind) && Outlives(e, t) then e.remaining else 0
  }

  function Tail(rows: seq<Entry>, account: nat, t: int): int { Sum(rows, TailFn(account, t)) }

  function Balance(rows: seq<Entry>, account: nat, now: int): int { Tail(rows, account, now) }

  // ----- Unique references -----

  predicate Matches(e: Entry, account: nat, kind: Kind, ref: Ref) {
    e.account == account && e.kind == kind && e.ref == ref
  }

  function Find(rows: seq<Entry>, account: nat, kind: Kind, ref: Ref): (r: Option<nat>)
    ensures r.Some? ==> r.value < |rows| && Matches(rows[r.value], account, kind, ref)
    ensures r.Some? ==> forall i :: 0 <= i < r.value ==> !Matches(rows[i], account, kind, ref)
    ensures r.None? ==> forall i :: 0 <= i < |rows| ==> !Matches(rows[i], account, kind, ref)
  {
    if rows == [] then None
    else
      var n := |rows| - 1;
      var earlier := Find(rows[..n], account, kind, ref);
      if earlier.Some? then earlier else if Matches(rows[n], account, kind, ref) then Some(n) else None
  }

  function GetOrCreate(rows: seq<Entry>, e: Entry): Update {
    match Find(rows, e.account, e.kind, e.ref)
    case Some(pk) => Update(rows, Done(pk))
    case None => Update(rows + [e], Done(|rows|))
  }

  // ----- Credits -----

  function GrantTokens(rows: seq<Entry>, account: nat, amount: int, expires: Option<int>, ref: Ref, now: int): Update {
    var e := Entry(account, Grant, amount, amount, expires, now, ref);
    if amount <= 0 then Update(rows, Rejected(AmountNotPositive))
    else if ref.NoRef? then Update(rows + [e], Done(|rows|))
    else GetOrCreate(rows, e)
  }

  function CreditPurchase(rows: seq<Entry>, account: nat, amount: int, ref: Ref, now: int): Update {
    if amount <= 0 then Update(rows, Rejected(AmountNotPositive))
    else if ref.NoRef? then Update(rows, Rejected(ReferenceRequired))
    else GetOrCreate(rows, Entry(account, Bought, amount, amount, None, now, ref))
  }

  // ----- Debits -----

  // Order of consumption: earliest expiry first, never-expiring last, then by creation; equal keys keep table order.
  predicate KeyLe(a: Entry, b: Entry) {
    if a.expires.Some? && b.expires.Some? && a.expires.value != b.expires.value then a.expires.value < b.expires.value
    else if a.expires.Some? != b.expires.Some? then a.expires.Some?
    else a.created <= b.created
  }

  predicate InTable(rows: seq<Entry>, ids: seq<nat>) { forall x :: 0 <= x < |ids| ==> ids[x] < |rows| }

  function Insert(rows: seq<Entry>, ids: seq<nat>, n: nat): (r: seq<nat>)
    requires n < |rows| && InTable(rows, ids)
    ensures InTable(rows, r) && |r| == |ids| + 1
    ensures forall i: nat {:trigger i in r} :: i in r <==> i in ids || i == n
  {
    if ids == [] then [n]
    else
      var last := |ids| - 1;
      if KeyLe(rows[ids[last]], rows[n]) then ids + [n]
      else
        assert ids == ids[..last] + [ids[last]];
        Insert(rows, ids[..last], n) + [ids[last]]
  }

  // The spendable entries among the first n, in order of consumption.
  function CreditsUpTo(rows: seq<Entry>, account: nat, now: int, n: nat): (r: seq<nat>)
    requires n <= |rows|
    ensures InTable(rows, r)
    ensures forall i: nat {:trigger i in r} :: i in r <==> i < n && Spendable(rows[i], account, now)
  {
    if n == 0 then []
    else
      var ids := CreditsUpTo(rows, account, now, n - 1);
      if Spendable(rows[n - 1], account, now) then Insert(rows, ids, n - 1) else ids
  }

  function Credits(rows: seq<Entry>, account: nat, now: int): seq<nat> { CreditsUpTo(rows, account, now, |rows|) }

  /** Spending `left` tokens along `ids`. */
  function Take(rows: seq<Entry>, ids: seq<nat>, left: int): (r: seq<Entry>)
    requires InTable(rows, ids)
    ensures |r| == |rows|
    ensures forall i :: 0 <= i < |rows| ==> r[i] == rows[i].(remaining := r[i].remaining)
    ensures forall i :: 0 <= i < |rows| && i !in ids ==> r[i] == rows[i]
    decreases |ids|
  {
    if ids == [] || left == 0 then rows
    else
      var g := rows[ids[0]];
      var take := Min(left, g.remaining);
      Take(rows[ids[0] := g.(remaining := g.remaining - take)], ids[1..], left - take)
  }

  function DebitTokens(rows: seq<Entry>, account: nat, amount: int, ref: Ref, now: int): Update {
    if amount <= 0 then Update(rows, Rejected(AmountNotPositive))
    else if ref.NoRef? then Update(rows, Rejected(ReferenceRequired))
    else
      var earlier := Find(rows, account, Debit, ref);
      if earlier.Some? then
        Update(rows,
               if rows[earlier.value].amount != -amount then Rejected(DebitReferenceReused) else Done(earlier.value))
      else if Balance(rows, account, now) < amount then Update(rows, Rejected(InsufficientTokens))
      else
        Update(Take(rows, Credits(rows, account, now), amount) + [Entry(account, Debit, -amount, 0, None, now, ref)],
               Done(|rows|))
  }

  function ReverseDebit(rows: seq<Entry>, account: nat, ref: Ref, reasonGiven: bool, now: int): Update {
    if !reasonGiven then Update(rows, Rejected(ReasonRequired))
    else
      match Find(rows, account, Debit, ref)
      case None => Update(rows, Rejected(UnknownDebit))
      case Some(pk) =>
        var amount := if rows[pk].amount < 0 then -rows[pk].amount else rows[pk].amount;
        GetOrCreate(rows, Entry(account, Adjustment, amount, amount, None, now, ReversalOf(ref)))
  }

  // ----- Closing credits: expiry and withdrawal -----

  /** What is left of entry k is zeroed and recorded under `ref`. */
  function Close(rows: seq<Entry>, k: nat, ref: Ref, now: int): (r: seq<Entry>)
    requires k < |rows|
    ensures |rows| <= |r| <= |rows| + 1
  {
    var e := rows[k];
    GetOrCreate(rows[k := e.(remaining := 0)], Entry(e.account, Expiry, -e.remaining, 0, None, now, ref)).rows
  }

  predicate Due(e: Entry, now: int) {
    e.kind.Grant? && e.expires.Some? && e.expires.value <= now && e.remaining > 0
  }

  // Entries k..n-1 one after the other.
  function ExpireFrom(rows: seq<Entry>, now: int, k: nat, n: nat): seq<Entry>
    requires k <= n <= |rows|
    decreases n - k
  {
    if k == n then rows
    else ExpireFrom(if Due(rows[k], now) then Close(rows, k, ExpiryOf(k), now) else rows, now, k + 1, n)
  }

  function ExpireTokens(rows: seq<Entry>, now: int): seq<Entry> { ExpireFrom(rows, now, 0, |rows|) }

  datatype ProductKind = Subscription | TeamPackage | TokenPackage

  // The entries a withdrawal takes back: credits bought or granted under its references, on the owner's accounts.
  datatype Withdrawal = Withdrawal(name: string, refs: set<Ref>, accounts: set<nat>)

  predicate Covered(e: Entry, w: Withdrawal) {
    e.ref in w.refs && (e.kind.Grant? || e.kind.Bought?) && e.account in w.accounts
  }

  function WithdrawFrom(rows: seq<Entry>, w: Withdrawal, now: int, k: nat, n: nat): seq<Entry>
    requires k <= n <= |rows|
    decreases n - k
  {
    if k == n then rows
    else
      var closing := Covered(rows[k], w) && rows[k].remaining > 0;
      WithdrawFrom(if closing then Close(rows, k, WithdrawalOf(w.name, k), now) else rows, w, now, k + 1, n)
  }

  function ZeroForWithdrawal(rows: seq<Entry>, w: Withdrawal, now: int): seq<Entry> {
    WithdrawFrom(rows, w, now, 0, |rows|)
  }

  // ----- Operations and runs -----

  datatype Op =
    | OpGrant(account: nat, amount: int, expires: Option<int>, ref: Ref)
    | OpPurchase(account: nat, amount: int, ref: Ref)
    | OpDebit(account: nat, amount: int, ref: Ref)
    | OpReverse(account: nat, ref: Ref, reasonGiven: bool)
    | OpExpire
    | OpWithdraw(w: Withdrawal)

  function Run1(rows: seq<Entry>, op: Op, now: int): seq<Entry> {
    match op
    case OpGrant(a, amount, expires, ref) => GrantTokens(rows, a, amount, expires, ref, now).rows
    case OpPurchase(a, amount, ref) => CreditPurchase(rows, a, amount, ref, now).rows
    case OpDebit(a, amount, ref) => DebitTokens(rows, a, amount, ref, now).rows
    case OpReverse(a, ref, reasonGiven) => ReverseDebit(rows, a, ref, reasonGiven, now).rows
    case OpExpire => ExpireTokens(rows, now)
    case OpWithdraw(w) => ZeroForWithdrawal(rows, w, now)
  }

  // A run: operations with the times they happen at.
  function Run(rows: seq<Entry>, ops: seq<(Op, int)>): seq<Entry>
    decreases |ops|
  {
    if ops == [] then rows else Run(Run1(rows, ops[0].0, ops[0].1), ops[1..])
  }
}
