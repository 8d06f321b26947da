/** Refund accounting against an at-least-once provider.

    One payment, its refund rows, and the provider's side of them. An attempt is a transaction, a provider call, and
    another transaction; events about refunds and charges arrive duplicated, delayed, and reordered; a charge event's
    snapshot, its listing, and its reconciliation are separate steps. Assumed of the provider: it refuses to refund more
    than was paid, replays a known idempotency key, lists completely, and does not fail a refund it accepted. */
module RefundAccounting {
  import opened Options
  import opened Sums
  import opened RefundRows

  // What the provider knows under a row's idempotency key.
  datatype KeyState = Unused | Accepted | Refused

  datatype Refund = Refund(pk: nat, row: Row, key: KeyState)

  // An attempt between its two transactions; `answer` is there once the provider call has returned.
  datatype Attempt = Attempt(pk: nat, answer: Option<Answer>)

  // Work on a charge between reading the provider and writing the payment. `seen`: our refunds the provider had
  // accepted by then. A charge event goes through its listed refunds (`todo`) first. The withdrawal and termination
  // paths read the payment, then ask the provider, then write the larger figure, without a lock.
  datatype Review =
    | ChargeEvent(charged: int, seen: set<nat>, todo: set<nat>)
    | BalanceRead(loaded: int)
    | BalanceLookup(total: int, seen: set<nat>)

  // `counted` is the history of increments of the refunded total, by row.
  datatype State = State(paid: nat, hasIntent: bool, refunded: int, refunds: seq<Refund>, foreign: nat,
                         attempts: seq<Attempt>, reviews: seq<Review>, counted: seq<nat>)

  datatype Step =
    | NewRow(declaration: nat, amount: int)
    | Start(pk: nat)
    | Call(a: nat, verdict: KeyState, answer: Answer)
    | End(a: nat)
    | NoReference(a: nat)
    | Replace(pk: nat)
    | RefundEvent(pk: nat, remote: RemoteStatus)
    | ForeignRefund(cents: nat)
    | BeginCharge(charged: int)
    | ListOne(v: nat, pk: nat, remote: RemoteStatus)
    | Reconcile(v: nat)
    | Load
    | Query(v: nat)
    | Save(v: nat)

  // ----- Sums over the refunds -----

  function AcceptedFn(): Refund -> int { (r: Refund) => if r.key.Accepted? then r.row.amount else 0 }

  // Accepted by the provider, not counted here yet.
  function UncountedFn(): Refund -> int {
    (r: Refund) => if r.key.Accepted? && !r.row.status.Succeeded? then r.row.amount else 0
  }

  // Accepted after a review looked.
  function LateFn(seen: set<nat>): Refund -> int {
    (r: Refund) => if r.key.Accepted? && r.pk !in seen then r.row.amount else 0
  }

  function OpenOursFn(): Refund -> int { (r: Refund) => OpenCents(r.row) }

  function ProviderTotal(s: State): int { Sum(s.refunds, AcceptedFn()) + s.foreign }

  /** What the provider says about a refund in state `key`: nothing else ever reaches us. */
  predicate Consistent(key: KeyState, remote: RemoteStatus) {
    match key
    case Unused => false
    case Accepted => !remote.RemoteFailed?
    case Refused => remote.RemoteFailed?
  }

  function AcceptedNow(s: State): set<nat> {
    set i: nat | i < |s.refunds| && s.refunds[i].key.Accepted? :: i
  }

  // ----- Steps -----

  function Init(paid: nat, hasIntent: bool): State { State(paid, hasIntent, 0, [], 0, [], [], []) }

  // The database admits one open row a payment: a transaction that would make a second one is undone.
  predicate OthersClosed(s: State, pk: nat) {
    forall i :: 0 <= i < |s.refunds| && i != pk ==> !Open(s.refunds[i].row.status)
  }

  predicate Enabled(s: State, step: Step) {
    match step
    case NewRow(declaration, amount) =>
      // an unfinished row of the declaration would be taken instead
      0 < amount && forall i :: 0 <= i < |s.refunds| ==>
        var r := s.refunds[i].row; !Open(r.status) && (r.declaration == declaration ==> Replaced(r.status))
    case Start(pk) => pk < |s.refunds| && !Replaced(s.refunds[pk].row.status) && OthersClosed(s, pk)
    case Call(a, verdict, answer) =>
      && a < |s.attempts| && s.attempts[a].answer.None? && s.hasIntent && s.attempts[a].pk < |s.refunds|
      && var r := s.refunds[s.attempts[a].pk];
         // a known key is replayed; a new one is accepted within what was paid, refused, or not even registered
      && (!r.key.Unused? ==> verdict == r.key)
      && (r.key.Unused? && verdict.Accepted? ==> ProviderTotal(s) + r.row.amount <= s.paid)
      && (answer.Result? ==> Consistent(verdict, answer.status))
    case End(a) =>
      && a < |s.attempts| && s.attempts[a].answer.Some? && s.attempts[a].pk < |s.refunds|
      && var pk := s.attempts[a].pk;
         Open(Finish(s.refunds[pk].row, s.attempts[a].answer.value).row.status) ==> OthersClosed(s, pk)
    case NoReference(a) => a < |s.attempts| && !s.hasIntent && s.attempts[a].pk < |s.refunds|
    case Replace(pk) => pk < |s.refunds| && Replaceable(s.refunds[pk].row)
    case RefundEvent(pk, remote) => pk < |s.refunds| && Consistent(s.refunds[pk].key, remote)
    case ForeignRefund(cents) => ProviderTotal(s) + cents <= s.paid
    case BeginCharge(charged) => 0 < charged <= ProviderTotal(s)
    case ListOne(v, pk, remote) =>
      && v < |s.reviews| && s.reviews[v].ChargeEvent? && pk in s.reviews[v].todo
      && pk < |s.refunds| && Consistent(s.refunds[pk].key, remote)
    case Reconcile(v) => v < |s.reviews| && s.reviews[v].ChargeEvent? && s.reviews[v].todo == {}
    case Load => true
    case Query(v) => v < |s.reviews| && s.reviews[v].BalanceRead?
    case Save(v) => v < |s.reviews| && s.reviews[v].BalanceLookup?
  }

  function SetRow(s: State, pk: nat, r: Row): State
    requires pk < |s.refunds|
  {
    s.(refunds := s.refunds[pk := s.refunds[pk].(row := r)])
  }

  function Book(s: State, pk: nat, e: Effect): State
    requires pk < |s.refunds|
  {
    SetRow(s, pk, e.row).(refunded := s.refunded + e.counted,
                          counted := if e.counted > 0 then s.counted + [pk] else s.counted)
  }

  function Apply(s: State, step: Step): State
    requires Enabled(s, step)
  {
    match step
    case NewRow(declaration, amount) =>
      s.(refunds := s.refunds + [Refund(|s.refunds|, Row(declaration, amount, Pending, false, NoError, 0), Unused)])
    case Start(pk) => SetRow(s, pk, Begin(s.refunds[pk].row)).(attempts := s.attempts + [Attempt(pk, None)])
    case Call(a, verdict, answer) =>
      var pk := s.attempts[a].pk;
      s.(refunds := s.refunds[pk := s.refunds[pk].(key := verdict)],
         attempts := s.attempts[a := s.attempts[a].(answer := Some(answer))])
    case End(a) =>
      var pk := s.attempts[a].pk;
      Book(s, pk, Finish(s.refunds[pk].row, s.attempts[a].answer.value)).(attempts := Without(s.attempts, a))
    case NoReference(a) =>
      var pk := s.attempts[a].pk;
      SetRow(s, pk, MissReference(s.refunds[pk].row)).(attempts := Without(s.attempts, a))
    case Replace(pk) => SetRow(s, pk, s.refunds[pk].row.(status := Cancelled))
    case RefundEvent(pk, remote) => Book(s, pk, Complete(s.refunds[pk].row, remote, s.refunds[pk].row.amount))
    case ForeignRefund(cents) => s.(foreign := s.foreign + cents)
    case BeginCharge(charged) =>
      // the refunds are listed only when some row of ours is not done yet
      var listing := exists i :: 0 <= i < |s.refunds| && !Replaced(s.refunds[i].row.status);
      var seen := AcceptedNow(s);
      s.(reviews := s.reviews + [ChargeEvent(charged, seen, if listing then seen else {})])
    case ListOne(v, pk, remote) =>
      var review := s.reviews[v];
      Book(s, pk, Complete(s.refunds[pk].row, remote, s.refunds[pk].row.amount))
        .(reviews := s.reviews[v := review.(todo := review.todo - {pk})])
    case Reconcile(v) =>
      s.(refunded := Reconciled(s.paid, s.refunded, s.reviews[v].charged, Sum(s.refunds, OpenOursFn())),
         reviews := Without(s.reviews, v))
    case Load => s.(reviews := s.reviews + [BalanceRead(s.refunded)])
    case Query(v) =>
      // a payment without a reference is not looked up
      var total := if s.hasIntent then Max(s.reviews[v].loaded, ProviderTotal(s)) else s.reviews[v].loaded;
      s.(reviews := s.reviews[v := BalanceLookup(total, AcceptedNow(s))])
    case Save(v) => s.(refunded := s.reviews[v].total, reviews := Without(s.reviews, v))
  }

  function Exec(s: State, steps: seq<Step>): Option<State>
    decreases |steps|
  {
    if steps == [] then Some(s)
    else if Enabled(s, steps[0]) then Exec(Apply(s, steps[0]), steps[1..])
    else None
  }

  /** An attempt was made and the row is still open: the provider may have accepted it or not. */
  predicate InDoubt(r: Row) { 0 < r.attempts && Open(r.status) }

  function LocalRows(refunds: seq<Refund>): (rows: seq<Row>)
    ensures |rows| == |refunds| && forall i :: 0 <= i < |rows| ==> rows[i] == refunds[i].row
  {
    seq(|refunds|, i requires 0 <= i < |refunds| => refunds[i].row)
  }

  // What the rows show as counted.
  function SucceededFn(): Row -> int { (r: Row) => if r.status.Succeeded? then r.amount else 0 }

  /** For all our side can tell, the provider may have accepted a refund that is not counted: the last row's, because
      every other row was closed once. It was attempted, is open, and fits the payment: beside the rows that succeeded,
      and beside the amount refunded. */
  predicate MayBeUncounted(paid: int, refunded: int, rows: seq<Row>) {
    rows != [] &&
    var last := rows[|rows| - 1];
    InDoubt(last) && Sum(rows, SucceededFn()) + last.amount <= paid && refunded + last.amount <= paid
  }

  /** The provider's total is taken over only while no refund of ours may be accepted and not counted. */
  predicate DoubtFree(s: State, step: Step) {
    step.Query? && s.hasIntent ==> !MayBeUncounted(s.paid, s.refunded, LocalRows(s.refunds))
  }

  // Every step of a run meets a condition.
  predicate Along(s: State, steps: seq<Step>, ok: (State, Step) -> bool)
    decreases |steps|
  {
    steps != [] ==> Enabled(s, steps[0]) && ok(s, steps[0]) && Along(Apply(s, steps[0]), steps[1..], ok)
  }

  // ----- Invariants -----

  // What a row of a payment with a reference can look like.
  predicate Formed(r: Row) {
    && 0 < r.amount
    && if r.attempts == 0 then r.status.Pending? && !r.known && r.error.NoError?
       else if r.status.Pending? then
         r.error.ProviderUnreachable? || (r.error.NoError? && (r.known ==> 2 <= r.attempts))
       else r.known && if Failing(r.status) then r.error.RefundFailed? else r.error.NoError?
  }

  // A row in one of these states is the answer to an accepted refund that is not counted yet.
  predicate Asked(st: Status) { st.Requested? || st.RequiresAction? }

  predicate Failing(st: Status) { st.Failed? || st.Cancelled? }

  ghost predicate SoundRefund(s: State, i: int)
    requires 0 <= i < |s.refunds|
  {
    var r := s.refunds[i];
    && r.pk == i && 0 < r.row.amount
    && (r.row.status.Succeeded? || Asked(r.row.status) ==> r.key.Accepted?)
    && (Failing(r.row.status) ==> r.key.Refused? || !s.hasIntent)
    && (!s.hasIntent ==> r.key.Unused?)
    && (r.row.attempts == 0 ==> r.key.Unused? && r.row.status.Pending?)
    && (r.row.known ==> !r.key.Unused?)
    && (s.hasIntent ==> Formed(r.row))
  }

  ghost predicate SoundAttempt(s: State, a: Attempt) {
    && a.pk < |s.refunds| && 0 < s.refunds[a.pk].row.attempts
    && (a.answer.Some? && a.answer.value.Result? ==> Consistent(s.refunds[a.pk].key, a.answer.value.status))
  }

  /** What a review still guarantees when it writes: its figure leaves room for everything accepted since, and of what
      it saw, the rest is counted or recognisable as ours. */
  ghost predicate SoundReview(s: State, v: Review) {
    match v
    case ChargeEvent(charged, seen, todo) =>
      && 0 < charged && LeavesRoom(s, charged, seen)
      && (forall pk :: pk in seen && pk !in todo ==> s.refunds[pk].row.status.Succeeded? || s.refunds[pk].row.known)
    case BalanceRead(loaded) => loaded <= ProviderTotal(s)
    case BalanceLookup(total, seen) =>
      LeavesRoom(s, total, seen) && (forall pk :: pk in seen ==> s.refunds[pk].row.status.Succeeded?)
  }

  ghost predicate LeavesRoom(s: State, figure: int, seen: set<nat>) {
    && (forall pk :: pk in seen ==> pk < |s.refunds| && s.refunds[pk].key.Accepted?)
    && figure + Sum(s.refunds, LateFn(seen)) <= ProviderTotal(s)
  }

  ghost predicate Rows(s: State) {
    && (forall i :: 0 <= i < |s.refunds| ==> SoundRefund(s, i))
    && (forall a :: a in s.attempts ==> SoundAttempt(s, a))
    && (forall v :: v in s.reviews ==> SoundReview(s, v))
  }

  /** Each row is in the history of increments exactly if it has succeeded, and at most once. */
  ghost predicate CountedOnce(s: State) {
    && (forall i, j :: 0 <= i < j < |s.counted| ==> s.counted[i] != s.counted[j])
    && (forall pk :: pk in s.counted <==> 0 <= pk < |s.refunds| && s.refunds[pk].row.status.Succeeded?)
  }

  /** Never more than the provider refunded, even after every accepted refund will have been counted. */
  ghost predicate Bounded(s: State) {
    s.refunded + Sum(s.refunds, UncountedFn()) <= ProviderTotal(s) <= s.paid
  }

  /** One row is open at most. Any row but the last was closed when the next was made; so it carries the provider's id,
      and what the provider accepted of these is counted. */
  ghost predicate InTurn(refunds: seq<Refund>, hasIntent: bool) {
    && (forall i, j :: 0 <= i < j < |refunds| ==> !Open(refunds[i].row.status) || !Open(refunds[j].row.status))
    && (hasIntent ==> forall i :: 0 <= i < |refunds| - 1 ==>
          refunds[i].row.known && (refunds[i].key.Accepted? ==> refunds[i].row.status.Succeeded?))
  }

  ghost predicate Inv(s: State) { Rows(s) && InTurn(s.refunds, s.hasIntent) && CountedOnce(s) && Bounded(s) }

  // ----- Preservation -----

  // One refund changed, and what the reviews rely on only grew.
  lemma ReviewsSurvive(s: State, s': State, pk: nat, v: Review)
    requires pk < |s.refunds| && SoundRefund(s, pk) && SoundReview(s, v)
    requires |s'.refunds| == |s.refunds| && s'.refunds == s.refunds[pk := s'.refunds[pk]] && s'.foreign == s.foreign
    requires var r, r' := s.refunds[pk], s'.refunds[pk];
             && r'.pk == r.pk && r'.row.amount == r.row.amount && (r.row.known ==> r'.row.known)
             && (r.key.Accepted? ==> r'.key.Accepted?) && (r.row.status.Succeeded? ==> r'.row.status.Succeeded?)
    ensures SoundReview(s', v)
  {
    SumUpdate(s.refunds, pk, s'.refunds[pk], AcceptedFn());
    if !v.BalanceRead? { SumUpdate(s.refunds, pk, s'.refunds[pk], LateFn(v.seen)); }
  }

  lemma TurnsSurvive(refunds: seq<Refund>, hasIntent: bool, pk: nat, r': Refund)
    requires InTurn(refunds, hasIntent) && pk < |refunds|
    requires var r := refunds[pk];
             && (r.row.known ==> r'.row.known && (r'.key.Accepted? ==> r.key.Accepted?))
             && (r.row.status.Succeeded? ==> r'.row.status.Succeeded?)
    requires Open(r'.row.status) ==> forall i :: 0 <= i < |refunds| && i != pk ==> !Open(refunds[i].row.status)
    ensures InTurn(refunds[pk := r'], hasIntent)
  {
  }

  /** Booking an answer about a refund the provider accepted (or a failure of one it refused). */
  lemma BookKeepsInv(s: State, pk: nat, e: Effect)
    requires Inv(s) && pk < |s.refunds|
    requires e.row.amount == s.refunds[pk].row.amount && (s.refunds[pk].row.known ==> e.row.known)
    requires e.row.known ==> !s.refunds[pk].key.Unused?
    requires e.row.status.Succeeded? || Asked(e.row.status) ==> s.refunds[pk].key.Accepted?
    requires Failing(e.row.status) ==> s.refunds[pk].key.Refused? || !s.hasIntent
    requires s.refunds[pk].row.status.Succeeded? ==> e.row.status.Succeeded?
    requires e.counted == if e.row.status.Succeeded? && !s.refunds[pk].row.status.Succeeded? then e.row.amount else 0
    requires 0 < e.row.attempts && (s.hasIntent ==> Formed(e.row)) && (Open(e.row.status) ==> OthersClosed(s, pk))
    ensures Inv(Book(s, pk, e))
    ensures ProviderTotal(Book(s, pk, e)) == ProviderTotal(s)
  {
    var s' := Book(s, pk, e);
    var r' := s'.refunds[pk];
    assert SoundRefund(s, pk);
    SumUpdate(s.refunds, pk, r', AcceptedFn());
    SumUpdate(s.refunds, pk, r', UncountedFn());
    TurnsSurvive(s.refunds, s.hasIntent, pk, r');
    forall i | 0 <= i < |s'.refunds| ensures SoundRefund(s', i) { assert SoundRefund(s, i); }
    forall a | a in s'.attempts ensures SoundAttempt(s', a) { assert SoundAttempt(s, a); }
    forall v | v in s'.reviews ensures SoundReview(s', v) { ReviewsSurvive(s, s', pk, v); }
    CountingOnce(s, pk, e);
  }

  lemma CountingOnce(s: State, pk: nat, e: Effect)
    requires CountedOnce(s) && pk < |s.refunds| && 0 < e.row.amount
    requires s.refunds[pk].row.status.Succeeded? ==> e.row.status.Succeeded?
    requires e.counted == if e.row.status.Succeeded? && !s.refunds[pk].row.status.Succeeded? then e.row.amount else 0
    ensures CountedOnce(Book(s, pk, e))
  {
    var s' := Book(s, pk, e);
    forall i | i in s'.counted
      ensures 0 <= i < |s'.refunds| && s'.refunds[i].row.status.Succeeded?
    {
      assert i in s.counted || i == pk;
    }
    forall i | 0 <= i < |s'.refunds| && s'.refunds[i].row.status.Succeeded? ensures i in s'.counted {
      assert i != pk ==> i in s.counted;
      assert e.counted > 0 ==> s'.counted[|s.counted|] == pk;
      if i in s.counted { var k :| 0 <= k < |s.counted| && s.counted[k] == i; assert s'.counted[k] == i; }
    }
  }

  lemma AnswerKeepsInv(s: State, pk: nat, answer: Answer)
    requires Inv(s) && pk < |s.refunds| && 0 < s.refunds[pk].row.attempts
    requires answer.Result? ==> Consistent(s.refunds[pk].key, answer.status)
    requires Open(Finish(s.refunds[pk].row, answer).row.status) ==> OthersClosed(s, pk)
    ensures Inv(Book(s, pk, Finish(s.refunds[pk].row, answer)))
  {
    assert SoundRefund(s, pk);
    BookKeepsInv(s, pk, Finish(s.refunds[pk].row, answer));
  }

  lemma EventKeepsInv(s: State, pk: nat, remote: RemoteStatus)
    requires Inv(s) && pk < |s.refunds| && Consistent(s.refunds[pk].key, remote)
    ensures var e := Complete(s.refunds[pk].row, remote, s.refunds[pk].row.amount);
            Inv(Book(s, pk, e)) && ProviderTotal(Book(s, pk, e)) == ProviderTotal(s)
  {
    assert SoundRefund(s, pk);
    BookKeepsInv(s, pk, Complete(s.refunds[pk].row, remote, s.refunds[pk].row.amount));
  }

  // A row change that counts nothing.
  lemma SetRowKeepsInv(s: State, pk: nat, r: Row)
    requires Inv(s) && pk < |s.refunds|
    requires r.amount == s.refunds[pk].row.amount && s.refunds[pk].row.known == r.known
    requires r.status.Succeeded? == s.refunds[pk].row.status.Succeeded?
    requires Asked(r.status) ==> s.refunds[pk].key.Accepted?
    requires Failing(r.status) ==> s.refunds[pk].key.Refused? || !s.hasIntent
    requires 0 < r.attempts && (s.hasIntent ==> Formed(r)) && (Open(r.status) ==> OthersClosed(s, pk))
    ensures Inv(SetRow(s, pk, r))
  {
    assert SoundRefund(s, pk);
    BookKeepsInv(s, pk, Effect(r, 0));
    assert Book(s, pk, Effect(r, 0)) == SetRow(s, pk, r);
  }

  lemma CallKeepsInv(s: State, a: nat, verdict: KeyState, answer: Answer)
    requires Inv(s) && Enabled(s, Call(a, verdict, answer))
    ensures Inv(Apply(s, Call(a, verdict, answer)))
  {
    var s' := Apply(s, Call(a, verdict, answer));
    var pk := s.attempts[a].pk;
    var r' := s'.refunds[pk];
    assert SoundRefund(s, pk) && SoundAttempt(s, s.attempts[a]);
    SumUpdate(s.refunds, pk, r', AcceptedFn());
    SumUpdate(s.refunds, pk, r', UncountedFn());
    TurnsSurvive(s.refunds, s.hasIntent, pk, r');
    forall i | 0 <= i < |s'.refunds| ensures SoundRefund(s', i) { assert SoundRefund(s, i); }
    forall x | x in s'.attempts ensures SoundAttempt(s', x) {
      if x in s.attempts { assert SoundAttempt(s, x); } else { assert x == s'.attempts[a]; }
    }
    forall v | v in s'.reviews ensures SoundReview(s', v) { ReviewsSurvive(s, s', pk, v); }
  }

  lemma OneMoreInTurn(s: State, r: Refund)
    requires Inv(s) && forall i :: 0 <= i < |s.refunds| ==> !Open(s.refunds[i].row.status)
    ensures InTurn(s.refunds + [r], s.hasIntent)
  {
    forall i | 0 <= i < |s.refunds| && s.hasIntent
      ensures s.refunds[i].row.known && (s.refunds[i].key.Accepted? ==> s.refunds[i].row.status.Succeeded?)
    {
      assert SoundRefund(s, i);
    }
  }

  lemma NewRowKeepsInv(s: State, declaration: nat, amount: int)
    requires Inv(s) && Enabled(s, NewRow(declaration, amount))
    ensures Inv(Apply(s, NewRow(declaration, amount)))
  {
    var s' := Apply(s, NewRow(declaration, amount));
    var r := s'.refunds[|s.refunds|];
    OneMoreInTurn(s, r);
    SumAppend(s.refunds, r, AcceptedFn());
    SumAppend(s.refunds, r, UncountedFn());
    forall i | 0 <= i < |s'.refunds| ensures SoundRefund(s', i) {
      if i < |s.refunds| { assert SoundRefund(s, i); }
    }
    forall x | x in s'.attempts ensures SoundAttempt(s', x) { assert SoundAttempt(s, x); }
    forall v | v in s'.reviews ensures SoundReview(s', v) {
      assert SoundReview(s, v);
      if !v.BalanceRead? { SumAppend(s.refunds, r, LateFn(v.seen)); }
    }
    assert forall pk :: 0 <= pk < |s.refunds| ==> s'.refunds[pk] == s.refunds[pk];
  }

  // Having just seen every accepted refund leaves room for any figure the provider can give.
  lemma SeeingAllLeavesRoom(s: State, figure: int)
    requires Inv(s) && figure <= ProviderTotal(s)
    ensures LeavesRoom(s, figure, AcceptedNow(s))
  {
    forall r | r in s.refunds ensures LateFn(AcceptedNow(s))(r) == 0 {
      var i :| 0 <= i < |s.refunds| && s.refunds[i] == r;
      assert SoundRefund(s, i);
    }
    SumZero(s.refunds, LateFn(AcceptedNow(s)));
  }

  // An accepted refund of ours that is not counted shows: it is the last row's, which was attempted, is open, and fits.
  lemma UncountedShows(s: State, i: nat)
    requires Inv(s) && i < |s.refunds| && s.refunds[i].key.Accepted? && !s.refunds[i].row.status.Succeeded?
    ensures s.hasIntent && MayBeUncounted(s.paid, s.refunded, LocalRows(s.refunds))
  {
    assert SoundRefund(s, i);
    assert i == |s.refunds| - 1;
    SucceededAreAccepted(s);
  }

  lemma SucceededAreAccepted(s: State)
    requires Inv(s) && s.refunds != []
    ensures var rows, last := LocalRows(s.refunds), s.refunds[|s.refunds| - 1];
            last.key.Accepted? && !last.row.status.Succeeded? ==>
              && Sum(rows, SucceededFn()) + last.row.amount <= Sum(s.refunds, AcceptedFn())
              && last.row.amount <= Sum(s.refunds, UncountedFn())
  {
    var rows, n := LocalRows(s.refunds), |s.refunds| - 1;
    forall k | 0 <= k < n
      ensures SucceededFn()(rows[..n][k]) <= AcceptedFn()(s.refunds[..n][k]) && 0 <= UncountedFn()(s.refunds[..n][k])
    {
      assert SoundRefund(s, k);
    }
    SumPointwiseLe(rows[..n], s.refunds[..n], SucceededFn(), AcceptedFn());
    SumPrefix(s.refunds[..n], n, UncountedFn());
  }

  /** Without a row in doubt everything accepted has been counted. */
  lemma NoDoubtNothingUncounted(s: State)
    requires Inv(s) && (s.hasIntent ==> !MayBeUncounted(s.paid, s.refunded, LocalRows(s.refunds)))
    ensures forall i :: 0 <= i < |s.refunds| && s.refunds[i].key.Accepted? ==> s.refunds[i].row.status.Succeeded?
    ensures Sum(s.refunds, UncountedFn()) == 0
  {
    forall i | 0 <= i < |s.refunds| ensures s.refunds[i].key.Accepted? ==> s.refunds[i].row.status.Succeeded? {
      if s.refunds[i].key.Accepted? && !s.refunds[i].row.status.Succeeded? { UncountedShows(s, i); }
    }
    SumTailZero(s.refunds, 0, UncountedFn());
  }

  lemma BeginChargeKeepsInv(s: State, charged: int)
    requires Inv(s) && Enabled(s, BeginCharge(charged))
    ensures Inv(Apply(s, BeginCharge(charged)))
  {
    var s' := Apply(s, BeginCharge(charged));
    var v := s'.reviews[|s.reviews|];
    SeeingAllLeavesRoom(s, charged);
    forall pk | pk in v.seen && pk !in v.todo ensures s.refunds[pk].row.status.Succeeded? { assert SoundRefund(s, pk); }
    assert SoundReview(s', v);
    BookkeepingKeepsInv(s, s');
  }

  lemma UncountedIsNonNegative(s: State)
    requires forall i :: 0 <= i < |s.refunds| ==> SoundRefund(s, i)
    ensures 0 <= Sum(s.refunds, UncountedFn())
  {
    forall r | r in s.refunds ensures 0 <= UncountedFn()(r) {
      var i :| 0 <= i < |s.refunds| && s.refunds[i] == r;
      assert SoundRefund(s, i);
    }
    SumPrefix(s.refunds, |s.refunds|, UncountedFn());
  }

  lemma LoadKeepsInv(s: State)
    requires Inv(s)
    ensures Inv(Apply(s, Load))
  {
    UncountedIsNonNegative(s);
    assert SoundReview(Apply(s, Load), BalanceRead(s.refunded));
    BookkeepingKeepsInv(s, Apply(s, Load));
  }

  lemma QueryKeepsInv(s: State, v: nat)
    requires Inv(s) && Enabled(s, Query(v)) && DoubtFree(s, Query(v))
    ensures Inv(Apply(s, Query(v)))
  {
    var s' := Apply(s, Query(v));
    assert SoundReview(s, s.reviews[v]);
    SeeingAllLeavesRoom(s, s'.reviews[v].total);
    NoDoubtNothingUncounted(s);
    assert SoundReview(s', s'.reviews[v]);
    BookkeepingKeepsInv(s, s');
  }

  /** Writing a finished review: what is accepted and not counted is either later than the review or one of our open
      rows, which the charge's figure is reduced by. */
  lemma ReconcileIsBounded(s: State, v: nat)
    requires Inv(s) && Enabled(s, Reconcile(v))
    ensures Bounded(Apply(s, Reconcile(v)))
  {
    var w := s.reviews[v];
    assert SoundReview(s, w);
    forall r | r in s.refunds ensures UncountedFn()(r) <= OpenOursFn()(r) + LateFn(w.seen)(r) {
      var i :| 0 <= i < |s.refunds| && s.refunds[i] == r;
      assert SoundRefund(s, i);
    }
    SumLeAdd(s.refunds, UncountedFn(), OpenOursFn(), LateFn(w.seen));
  }

  lemma SaveIsBounded(s: State, v: nat)
    requires Inv(s) && Enabled(s, Save(v))
    ensures Bounded(Apply(s, Save(v)))
  {
    var w := s.reviews[v];
    assert SoundReview(s, w);
    forall r | r in s.refunds ensures UncountedFn()(r) <= LateFn(w.seen)(r) {
      var i :| 0 <= i < |s.refunds| && s.refunds[i] == r;
      assert SoundRefund(s, i);
    }
    SumLe(s.refunds, UncountedFn(), LateFn(w.seen));
  }

  // Attempts and reviews only leave, or a review crosses one listed refund off.
  lemma BookkeepingKeepsInv(s: State, s': State)
    requires Inv(s) && Bounded(s')
    requires s'.paid == s.paid && s'.hasIntent == s.hasIntent && s'.refunds == s.refunds
             && s'.foreign == s.foreign && s'.counted == s.counted
    requires forall a :: a in s'.attempts ==> a in s.attempts || SoundAttempt(s', a)
    requires forall v :: v in s'.reviews ==> v in s.reviews || SoundReview(s', v)
    ensures Inv(s')
  {
    forall i | 0 <= i < |s'.refunds| ensures SoundRefund(s', i) { assert SoundRefund(s, i); }
    forall a | a in s'.attempts ensures SoundAttempt(s', a) { assert a in s.attempts ==> SoundAttempt(s, a); }
    forall v | v in s'.reviews ensures SoundReview(s', v) { assert v in s.reviews ==> SoundReview(s, v); }
  }

  lemma ListOneKeepsInv(s: State, v: nat, pk: nat, remote: RemoteStatus)
    requires Inv(s) && Enabled(s, ListOne(v, pk, remote))
    ensures Inv(Apply(s, ListOne(v, pk, remote)))
  {
    var e := Complete(s.refunds[pk].row, remote, s.refunds[pk].row.amount);
    var booked := Book(s, pk, e);
    EventKeepsInv(s, pk, remote);
    var s' := Apply(s, ListOne(v, pk, remote));
    var w := s'.reviews[v];
    assert SoundReview(booked, s.reviews[v]) && SoundRefund(s, pk) && SoundReview(s, s.reviews[v]);
    assert SoundReview(s', w);
    BookkeepingKeepsInv(booked, s');
  }

  lemma StartKeepsInv(s: State, pk: nat)
    requires Inv(s) && Enabled(s, Start(pk))
    ensures Inv(Apply(s, Start(pk)))
  {
    assert SoundRefund(s, pk);
    SetRowKeepsInv(s, pk, Begin(s.refunds[pk].row));
    BookkeepingKeepsInv(SetRow(s, pk, Begin(s.refunds[pk].row)), Apply(s, Start(pk)));
  }

  lemma EndKeepsInv(s: State, a: nat)
    requires Inv(s) && Enabled(s, End(a))
    ensures Inv(Apply(s, End(a)))
  {
    var t := s.attempts[a];
    assert SoundAttempt(s, t);
    AnswerKeepsInv(s, t.pk, t.answer.value);
    BookkeepingKeepsInv(Book(s, t.pk, Finish(s.refunds[t.pk].row, t.answer.value)), Apply(s, End(a)));
  }

  lemma NoReferenceKeepsInv(s: State, a: nat)
    requires Inv(s) && Enabled(s, NoReference(a))
    ensures Inv(Apply(s, NoReference(a)))
  {
    var pk := s.attempts[a].pk;
    assert SoundRefund(s, pk) && SoundAttempt(s, s.attempts[a]);
    SetRowKeepsInv(s, pk, MissReference(s.refunds[pk].row));
    BookkeepingKeepsInv(SetRow(s, pk, MissReference(s.refunds[pk].row)), Apply(s, NoReference(a)));
  }

  // The two transactions around the provider call, and giving a row up.
  lemma RowStepKeepsInv(s: State, step: Step)
    requires Inv(s) && Enabled(s, step) && (step.Start? || step.End? || step.NoReference? || step.Replace?)
    ensures Inv(Apply(s, step))
  {
    match step
    case Start(pk) => StartKeepsInv(s, pk);
    case End(a) => EndKeepsInv(s, a);
    case NoReference(a) => NoReferenceKeepsInv(s, a);
    case Replace(pk) =>
      assert SoundRefund(s, pk);
      SetRowKeepsInv(s, pk, s.refunds[pk].row.(status := Cancelled));
  }

  lemma StepKeepsInv(s: State, step: Step)
    requires Inv(s) && Enabled(s, step) && DoubtFree(s, step)
    ensures Inv(Apply(s, step))
  {
    var s' := Apply(s, step);
    if step.Start? || step.End? || step.NoReference? || step.Replace? {
      RowStepKeepsInv(s, step);
    } else if step.NewRow? {
      NewRowKeepsInv(s, step.declaration, step.amount);
    } else if step.Call? {
      CallKeepsInv(s, step.a, step.verdict, step.answer);
    } else if step.RefundEvent? {
      EventKeepsInv(s, step.pk, step.remote);
    } else if step.ListOne? {
      ListOneKeepsInv(s, step.v, step.pk, step.remote);
    } else if step.BeginCharge? {
      BeginChargeKeepsInv(s, step.charged);
    } else if step.Load? {
      LoadKeepsInv(s);
    } else if step.Query? {
      QueryKeepsInv(s, step.v);
    } else if step.ForeignRefund? {
      ForeignKeepsInv(s, step.cents);
    } else if step.Reconcile? {
      ReconcileIsBounded(s, step.v);
      BookkeepingKeepsInv(s, s');
    } else {
      SaveIsBounded(s, step.v);
      BookkeepingKeepsInv(s, s');
    }
  }

  lemma ForeignKeepsInv(s: State, cents: nat)
    requires Inv(s) && ProviderTotal(s) + cents <= s.paid
    ensures Inv(s.(foreign := s.foreign + cents))
  {
    var s' := s.(foreign := s.foreign + cents);
    forall i | 0 <= i < |s'.refunds| ensures SoundRefund(s', i) { assert SoundRefund(s, i); }
    forall a | a in s'.attempts ensures SoundAttempt(s', a) { assert SoundAttempt(s, a); }
    forall v | v in s'.reviews ensures SoundReview(s', v) { assert SoundReview(s, v); }
  }

  // ----- Theorems over all runs -----

  lemma {:induction false} RunKeepsInv(s: State, steps: seq<Step>, t: State)
    requires Inv(s) && Exec(s, steps) == Some(t) && Along(s, steps, DoubtFree)
    ensures Inv(t) && t.paid == s.paid
    decreases |steps|
  {
    if steps != [] {
      StepKeepsInv(s, steps[0]);
      RunKeepsInv(Apply(s, steps[0]), steps[1..], t);
    }
  }

  /** For any interleaving: the refunded total plus everything accepted but not counted yet stays within what the
      provider refunded, which stays within what was paid; and no row is counted twice. The provider's total must not be
      taken over while the provider may have accepted a row of ours that is not counted, for all that shows here. */
  lemma RefundsNeverExceedProvider(paid: nat, hasIntent: bool, steps: seq<Step>, t: State)
    requires Exec(Init(paid, hasIntent), steps) == Some(t) && Along(Init(paid, hasIntent), steps, DoubtFree)
    ensures t.refunded + Sum(t.refunds, UncountedFn()) <= ProviderTotal(t) <= paid
    ensures forall i, j :: 0 <= i < j < |t.counted| ==> t.counted[i] != t.counted[j]
    ensures forall pk :: pk in t.counted <==> 0 <= pk < |t.refunds| && t.refunds[pk].row.status.Succeeded?
  {
    RunKeepsInv(Init(paid, hasIntent), steps, t);
  }

  // ----- The lower half -----

  // What our succeeded refunds, the ones in the history of increments, add up to.
  function CountedFn(): Refund -> int { (r: Refund) => if r.row.status.Succeeded? then r.row.amount else 0 }

  /** Nothing that was counted is lost again. */
  ghost predicate KeepsCounted(s: State) { Sum(s.refunds, CountedFn()) <= s.refunded }

  /** A figure looked up is written only while it does not lower the payment's. */
  predicate NeverLowers(s: State, step: Step) {
    step.Save? && step.v < |s.reviews| && s.reviews[step.v].BalanceLookup? ==> s.refunded <= s.reviews[step.v].total
  }

  lemma BookKeepsCounted(s: State, pk: nat, e: Effect)
    requires KeepsCounted(s) && pk < |s.refunds| && e.row.amount == s.refunds[pk].row.amount
    requires s.refunds[pk].row.status.Succeeded? ==> e.row.status.Succeeded?
    requires e.counted == if e.row.status.Succeeded? && !s.refunds[pk].row.status.Succeeded? then e.row.amount else 0
    ensures KeepsCounted(Book(s, pk, e))
  {
    SumUpdate(s.refunds, pk, s.refunds[pk].(row := e.row), CountedFn());
  }

  lemma StepKeepsCounted(s: State, step: Step)
    requires KeepsCounted(s) && Enabled(s, step) && NeverLowers(s, step)
    ensures KeepsCounted(Apply(s, step))
  {
    if step.NewRow? {
      SumAppend(s.refunds, Apply(s, step).refunds[|s.refunds|], CountedFn());
    } else if step.Start? {
      BookKeepsCounted(s, step.pk, Effect(Begin(s.refunds[step.pk].row), 0));
    } else if step.Call? {
      var pk := s.attempts[step.a].pk;
      SumUpdate(s.refunds, pk, s.refunds[pk].(key := step.verdict), CountedFn());
    } else if step.End? {
      var t := s.attempts[step.a];
      BookKeepsCounted(s, t.pk, Finish(s.refunds[t.pk].row, t.answer.value));
    } else if step.NoReference? {
      var pk := s.attempts[step.a].pk;
      BookKeepsCounted(s, pk, Effect(MissReference(s.refunds[pk].row), 0));
    } else if step.Replace? {
      BookKeepsCounted(s, step.pk, Effect(s.refunds[step.pk].row.(status := Cancelled), 0));
    } else if step.RefundEvent? || step.ListOne? {
      BookKeepsCounted(s, step.pk, Complete(s.refunds[step.pk].row, step.remote, s.refunds[step.pk].row.amount));
    }
  }

  lemma {:induction false} RunKeepsCounted(s: State, steps: seq<Step>, t: State)
    requires KeepsCounted(s) && Exec(s, steps) == Some(t) && Along(s, steps, NeverLowers)
    ensures KeepsCounted(t)
    decreases |steps|
  {
    if steps != [] {
      StepKeepsCounted(s, steps[0]);
      RunKeepsCounted(Apply(s, steps[0]), steps[1..], t);
    }
  }

  /** For any interleaving the refunded total covers at least the refunds of ours that succeeded, as long as no stale
      lookup lowers it. */
  lemma CountedRefundsAreKept(paid: nat, hasIntent: bool, steps: seq<Step>, t: State)
    requires Exec(Init(paid, hasIntent), steps) == Some(t) && Along(Init(paid, hasIntent), steps, NeverLowers)
    ensures Sum(t.refunds, CountedFn()) <= t.refunded
  {
    RunKeepsCounted(Init(paid, hasIntent), steps, t);
  }

  // ----- What a charge event is worth -----

  /** An up-to-date charge event catches up with every refund made at the provider: what is missing afterwards is at
      most our own open rows, and nothing is missing once those are done. */
  lemma CurrentChargeCatchesUp(s: State, v: nat)
    requires Inv(s) && Enabled(s, Reconcile(v)) && s.reviews[v].charged == ProviderTotal(s)
    ensures var s', open := Apply(s, Reconcile(v)), Sum(s.refunds, OpenOursFn());
            && ProviderTotal(s) - open <= s'.refunded <= ProviderTotal(s)
            && (open == 0 ==> s'.refunded == ProviderTotal(s) && Sum(s.refunds, UncountedFn()) == 0)
  {
    ReconcileIsBounded(s, v);
    assert SoundReview(s, s.reviews[v]);
    UncountedIsNonNegative(s);
    forall r | r in s.refunds ensures 0 <= OpenOursFn()(r) {
      var i :| 0 <= i < |s.refunds| && s.refunds[i] == r;
      assert SoundRefund(s, i);
    }
    SumPrefix(s.refunds, |s.refunds|, OpenOursFn());
  }
}
