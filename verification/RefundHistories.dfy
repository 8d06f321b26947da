/** What runs can lead to: exactly which rows, keys and refunded totals occur together. */
module RefundHistories {
  import opened Options
  import opened Sums
  import opened RefundRows
  import opened RefundAccounting

  // ----- States that runs reach without a takeover in doubt -----

  ghost predicate Reachable(s: State) {
    exists steps ::
      Exec(Init(s.paid, s.hasIntent), steps) == Some(s) && Along(Init(s.paid, s.hasIntent), steps, DoubtFree)
  }

  lemma {:induction false} OneStepMore(s: State, steps: seq<Step>, t: State, step: Step)
    requires Exec(s, steps) == Some(t) && Along(s, steps, DoubtFree) && Enabled(t, step) && DoubtFree(t, step)
    ensures Exec(s, steps + [step]) == Some(Apply(t, step)) && Along(s, steps + [step], DoubtFree)
    decreases |steps|
  {
    if steps == [] {
      assert [] + [step] == [step] && [step][1..] == [];
    } else {
      OneStepMore(Apply(s, steps[0]), steps[1..], t, step);
      assert (steps + [step])[1..] == steps[1..] + [step];
    }
  }

  lemma ReachFurther(s: State, step: Step) returns (t: State)
    requires Reachable(s) && Enabled(s, step) && DoubtFree(s, step)
    ensures t == Apply(s, step) && Reachable(t) && t.paid == s.paid && t.hasIntent == s.hasIntent
  {
    t := Apply(s, step);
    var steps :| Exec(Init(s.paid, s.hasIntent), steps) == Some(s)
                 && Along(Init(s.paid, s.hasIntent), steps, DoubtFree);
    OneStepMore(Init(s.paid, s.hasIntent), steps, s, step);
  }

  lemma StartIsReachable(paid: nat)
    ensures Reachable(Init(paid, true))
  {
    assert Exec(Init(paid, true), []) == Some(Init(paid, true));
  }

  lemma ReachableInv(s: State)
    requires Reachable(s) && 0 <= s.paid
    ensures Inv(s)
  {
    var steps :| Exec(Init(s.paid, s.hasIntent), steps) == Some(s)
                 && Along(Init(s.paid, s.hasIntent), steps, DoubtFree);
    RunKeepsInv(Init(s.paid, s.hasIntent), steps, s);
  }

  // The provider has refunded some cents of its own accord, and a charge event has reported them.
  lemma ForeignCounted(paid: nat, refunded: nat) returns (s: State)
    requires refunded <= paid
    ensures Reachable(s) && s == Init(paid, true).(refunded := refunded, foreign := refunded)
  {
    StartIsReachable(paid);
    s := Init(paid, true);
    if 0 < refunded {
      s := ReachFurther(s, ForeignRefund(refunded));
      assert AcceptedNow(s) == {};
      s := ReachFurther(s, BeginCharge(refunded));
      assert s.reviews == [ChargeEvent(refunded, {}, {})];
      s := ReachFurther(s, Reconcile(0));
    }
  }

  // ----- One row -----

  function Fresh(r: Refund): Refund {
    Refund(r.pk, Row(r.row.declaration, r.row.amount, Pending, false, NoError, 0), Unused)
  }

  // A key that the row goes with.
  predicate KeyFits(r: Refund) {
    && (r.row.attempts == 0 ==> r.key.Unused?)
    && (r.row.status.Succeeded? || Asked(r.row.status) ==> r.key.Accepted?)
    && (Failing(r.row.status) ==> r.key.Refused?)
    && (r.row.known ==> !r.key.Unused?)
  }

  // Refund j is new and may become r: no other is open, and it fits the payment.
  ghost predicate Ready(s: State, j: nat, r: Refund) {
    && Reachable(s) && s.hasIntent && j < |s.refunds| && s.refunds[j] == Fresh(r) && r.pk == j
    && OthersClosed(s, j) && Formed(r.row) && KeyFits(r)
    && (r.key.Accepted? ==> ProviderTotal(s) + r.row.amount <= s.paid)
  }

  // Only refund j changed, attempts aside.
  ghost predicate OneChanged(s: State, t: State, j: nat, r: Refund) {
    && j < |s.refunds| && Reachable(t) && Keeps(s.attempts, t.attempts)
    && t == s.(refunds := s.refunds[j := r], attempts := t.attempts)
  }

  ghost predicate Keeps(before: seq<Attempt>, after: seq<Attempt>) { forall x :: x in before ==> x in after }

  lemma PrefixKeeps(before: seq<Attempt>, after: seq<Attempt>)
    requires before <= after
    ensures Keeps(before, after)
  {
    forall x | x in before ensures x in after {
      var i :| 0 <= i < |before| && before[i] == x;
      assert after[i] == x;
    }
  }

  lemma {:induction false} Attempted(s: State, j: nat, n: nat) returns (t: State)
    requires Reachable(s) && j < |s.refunds| && s.refunds[j] == Fresh(s.refunds[j]).(pk := j) && OthersClosed(s, j)
    ensures OneChanged(s, t, j, s.refunds[j].(row := s.refunds[j].row.(attempts := n)))
    ensures |t.attempts| == |s.attempts| + n && s.attempts <= t.attempts
    ensures forall a :: |s.attempts| <= a < |t.attempts| ==> t.attempts[a] == Attempt(j, None)
  {
    if n == 0 {
      t := s;
    } else {
      var before := Attempted(s, j, n - 1);
      t := ReachFurther(before, Start(j));
      PrefixKeeps(s.attempts, t.attempts);
    }
  }

  // The provider decides at the first attempt, whose answer is still to be dealt with.
  lemma Called(s: State, j: nat, n: nat, key: KeyState, answer: Answer) returns (t: State)
    requires Reachable(s) && s.hasIntent && j < |s.refunds| && s.refunds[j] == Fresh(s.refunds[j]).(pk := j)
    requires OthersClosed(s, j) && 0 < n && (answer.Result? ==> Consistent(key, answer.status))
    requires key.Accepted? ==> ProviderTotal(s) + s.refunds[j].row.amount <= s.paid
    ensures OneChanged(s, t, j, s.refunds[j].(row := s.refunds[j].row.(attempts := n), key := key))
    ensures s.attempts < t.attempts && t.attempts[|s.attempts|] == Attempt(j, Some(answer))
  {
    var before := Attempted(s, j, n);
    SumUpdate(s.refunds, j, before.refunds[j], AcceptedFn());
    t := ReachFurther(before, Call(|s.attempts|, key, answer));
    PrefixKeeps(s.attempts, t.attempts);
  }

  // An event tells how the refund stands.
  lemma Told(s: State, j: nat, remote: RemoteStatus) returns (t: State)
    requires Reachable(s) && j < |s.refunds| && Consistent(s.refunds[j].key, remote)
    ensures Reachable(t)
    ensures var e := Complete(s.refunds[j].row, remote, s.refunds[j].row.amount);
            t == s.(refunds := s.refunds[j := s.refunds[j].(row := e.row)],
                    refunded := s.refunded + e.counted,
                    counted := if e.counted > 0 then s.counted + [j] else s.counted)
  {
    t := ReachFurther(s, RefundEvent(j, remote));
  }

  // Which event shows the provider's id without counting anything.
  function Mention(key: KeyState): RemoteStatus { if key.Accepted? then RemotePending else RemoteFailed }

  lemma PendingRow(s: State, j: nat, r: Refund) returns (t: State)
    requires Ready(s, j, r) && 0 < r.row.attempts && r.row.status.Pending? && r.row.error.NoError?
    ensures OneChanged(s, t, j, r)
  {
    if r.row.known {
      var called := Called(s, j, r.row.attempts - 1, r.key, Unreachable);
      var told := Told(called, j, Mention(r.key));
      t := ReachFurther(told, Start(j));
      PrefixKeeps(s.attempts, t.attempts);
    } else {
      t := Called(s, j, r.row.attempts, r.key, Unreachable);
    }
  }

  lemma UnansweredRow(s: State, j: nat, r: Refund) returns (t: State)
    requires Ready(s, j, r) && 0 < r.row.attempts && r.row.status.Pending? && r.row.error.ProviderUnreachable?
    ensures OneChanged(s, t, j, r)
  {
    var called := Called(s, j, r.row.attempts, r.key, Unreachable);
    if r.row.known { called := Told(called, j, Mention(r.key)); }
    t := ReachFurther(called, End(|s.attempts|));
    PrefixKeeps(s.attempts, t.attempts);
  }

  lemma AskedRow(s: State, j: nat, r: Refund) returns (t: State)
    requires Ready(s, j, r) && Asked(r.row.status)
    ensures OneChanged(s, t, j, r)
  {
    var called := Called(s, j, r.row.attempts, r.key, Unreachable);
    t := Told(called, j, if r.row.status.Requested? then RemotePending else RemoteRequiresAction);
  }

  lemma OpenRow(s: State, j: nat, r: Refund) returns (t: State)
    requires Ready(s, j, r) && Open(r.row.status)
    ensures OneChanged(s, t, j, r)
  {
    if r.row.attempts == 0 {
      t := s;
      assert r == Fresh(r) && s.refunds[j := r] == s.refunds;
    } else if Asked(r.row.status) {
      t := AskedRow(s, j, r);
    } else if r.row.error.NoError? {
      t := PendingRow(s, j, r);
    } else {
      t := UnansweredRow(s, j, r);
    }
  }

  // ----- Rows that were closed to make room for the next -----

  // A row that has been closed once: the provider has spoken, and it has refused all that has not succeeded.
  predicate Closable(r: Refund) {
    Formed(r.row) && KeyFits(r) && r.row.known && (r.row.status.Succeeded? || r.key.Refused?)
  }

  // What the row was before, with an answer still to come.
  function Before(r: Refund): Refund {
    if Replaced(r.row.status) then r
    else
      var attempts: nat := if r.row.status.Pending? && r.row.error.NoError? && 0 < r.row.attempts
                           then r.row.attempts - 1 else r.row.attempts;
      r.(row := r.row.(status := Cancelled, error := RefundFailed, attempts := attempts))
  }

  function Late(r: Refund): Attempt {
    Attempt(r.pk, Some(if r.row.error.ProviderUnreachable? then Unreachable else Result(RemoteFailed)))
  }

  lemma CancelledRow(s: State, j: nat, r: Refund) returns (t: State)
    requires Ready(s, j, Before(r)) && Closable(r) && !r.row.status.Succeeded?
    ensures OneChanged(s, t, j, Before(r)) && Late(r) in t.attempts
  {
    var called := Called(s, j, Before(r).row.attempts, r.key, Late(r).answer.value);
    var failed := Told(called, j, RemoteFailed);
    t := ReachFurther(failed, Replace(j));
    assert called.attempts[|s.attempts|] in t.attempts;
  }

  lemma SucceededRow(s: State, j: nat, r: Refund) returns (t: State)
    requires Ready(s, j, r) && r.row.status.Succeeded?
    ensures Reachable(t) && Keeps(s.attempts, t.attempts)
    ensures t == s.(refunds := s.refunds[j := r], refunded := s.refunded + r.row.amount,
                    attempts := t.attempts, counted := t.counted)
  {
    var called := Called(s, j, r.row.attempts, Accepted, Unreachable);
    t := Told(called, j, RemoteSucceeded);
  }

  lemma ClosedRow(s: State, j: nat, r: Refund) returns (t: State)
    requires Ready(s, j, Before(r)) && Closable(r)
    ensures Reachable(t) && Keeps(s.attempts, t.attempts)
    ensures !Replaced(r.row.status) ==> Late(r) in t.attempts
    ensures t == s.(refunds := s.refunds[j := Before(r)], refunded := s.refunded + CountedFn()(r),
                    attempts := t.attempts, counted := t.counted)
  {
    if r.row.status.Succeeded? {
      t := SucceededRow(s, j, r);
    } else {
      t := CancelledRow(s, j, r);
    }
  }

  // ----- All of them, one after the other -----

  function AllBefore(goal: seq<Refund>): (refunds: seq<Refund>)
    ensures |refunds| == |goal| && forall i :: 0 <= i < |goal| ==> refunds[i] == Before(goal[i])
  {
    seq(|goal|, i requires 0 <= i < |goal| => Before(goal[i]))
  }

  predicate AllClosable(goal: seq<Refund>) {
    forall i :: 0 <= i < |goal| ==> goal[i].pk == i && Closable(goal[i])
  }

  // The late answers of these rows are still to come.
  predicate AnswersLeft(s: State, goal: seq<Refund>, from: nat, n: nat)
    requires n <= |goal|
  {
    forall i :: from <= i < n && !Replaced(goal[i].row.status) ==> Late(goal[i]) in s.attempts
  }

  // Foreign refunds, and a lookup of just these.
  lemma Prepared(paid: nat, foreign: nat) returns (s: State)
    requires foreign <= paid
    ensures Reachable(s)
    ensures s == Init(paid, true).(refunded := foreign, foreign := foreign, reviews := [BalanceLookup(foreign, {})])
  {
    var before := ForeignCounted(paid, foreign);
    var loaded := ReachFurther(before, Load);
    assert AcceptedNow(loaded) == {};
    s := ReachFurther(loaded, Query(0));
    assert s.reviews == [BalanceLookup(foreign, {})];
  }

  // The states after some closed rows.
  ghost predicate AfterClosed(s: State, paid: nat, foreign: nat, goal: seq<Refund>) {
    && Reachable(s) && s.paid == paid && s.hasIntent && s.foreign == foreign && s.refunds == AllBefore(goal)
    && ProviderTotal(s) == foreign + Sum(goal, CountedFn()) && AnswersLeft(s, goal, 0, |goal|)
  }

  lemma {:induction false} ClosedRows(paid: nat, foreign: nat, goal: seq<Refund>) returns (s: State)
    requires AllClosable(goal) && foreign + Sum(goal, CountedFn()) <= paid && foreign <= paid
    ensures AfterClosed(s, paid, foreign, goal)
    ensures s.refunded == ProviderTotal(s) && s.reviews == [BalanceLookup(foreign, {})]
  {
    if goal == [] {
      s := Prepared(paid, foreign);
    } else {
      var n := |goal| - 1;
      var before := ClosedRows(paid, foreign, goal[..n]);
      s := NextClosed(before, goal);
    }
  }

  lemma Created(s: State, r: Refund) returns (t: State)
    requires Reachable(s) && r.pk == |s.refunds| && 0 < r.row.amount
    requires forall i :: 0 <= i < |s.refunds| ==> Replaced(s.refunds[i].row.status)
    ensures Reachable(t) && t == s.(refunds := s.refunds + [Fresh(r)])
    ensures ProviderTotal(t) == ProviderTotal(s) && OthersClosed(t, r.pk)
  {
    t := ReachFurther(s, NewRow(r.row.declaration, r.row.amount));
    SumAppend(s.refunds, Fresh(r), AcceptedFn());
  }

  lemma NextClosed(s: State, goal: seq<Refund>) returns (t: State)
    requires AllClosable(goal) && goal != [] && 0 <= s.paid
    requires AfterClosed(s, s.paid, s.foreign, goal[..|goal| - 1]) && s.foreign + Sum(goal, CountedFn()) <= s.paid
    ensures AfterClosed(t, s.paid, s.foreign, goal) && t.reviews == s.reviews
    ensures t.refunded - s.refunded == ProviderTotal(t) - ProviderTotal(s)
  {
    var n := |goal| - 1;
    var r := goal[n];
    forall i | 0 <= i < n ensures Replaced(s.refunds[i].row.status) { assert goal[..n][i] == goal[i]; }
    var created := Created(s, r);
    t := ClosedRow(created, n, r);
    SumUpdate(created.refunds, n, Before(r), AcceptedFn());
    assert t.refunds == AllBefore(goal);
    forall i | 0 <= i < |goal| && !Replaced(goal[i].row.status) ensures Late(goal[i]) in t.attempts {
      if i < n { assert Late(goal[..n][i]) in s.attempts; }
    }
  }

  // ----- The refunded total -----

  // With all rows done, an event about a charge lists nothing.
  lemma ChargeWritten(s: State, charged: nat) returns (t: State)
    requires Reachable(s) && s.reviews == [] && 0 < charged <= ProviderTotal(s) && charged <= s.paid
    requires s.refunded == 0 && forall i :: 0 <= i < |s.refunds| ==> Replaced(s.refunds[i].row.status)
    ensures Reachable(t) && t == s.(refunded := charged)
  {
    var begun := ReachFurther(s, BeginCharge(charged));
    assert begun.reviews == [ChargeEvent(charged, AcceptedNow(s), {})];
    forall r | r in s.refunds ensures OpenOursFn()(r) == 0 {
      var k :| 0 <= k < |s.refunds| && s.refunds[k] == r;
    }
    SumZero(s.refunds, OpenOursFn());
    t := ReachFurther(begun, Reconcile(0));
    assert t.reviews == [];
  }

  // A lookup from before any refund lowers the total to nothing; a charge event raises it to any figure up to what the
  // provider has refunded.
  lemma Lowered(s: State, refunded: nat) returns (t: State)
    requires Reachable(s) && s.reviews == [BalanceLookup(0, {})] && refunded <= ProviderTotal(s) && refunded <= s.paid
    requires forall i :: 0 <= i < |s.refunds| ==> Replaced(s.refunds[i].row.status)
    ensures Reachable(t) && t == s.(refunded := refunded, reviews := [])
  {
    t := ReachFurther(s, Save(0));
    assert t.reviews == [];
    if 0 < refunded { t := ChargeWritten(t, refunded); }
  }

  lemma TotalReached(paid: nat, refunded: nat, goal: seq<Refund>) returns (s: State)
    requires AllClosable(goal) && 0 <= Sum(goal, CountedFn()) <= paid && refunded <= paid
    ensures AfterClosed(s, paid, Max(0, refunded - Sum(goal, CountedFn())), goal) && s.refunded == refunded
  {
    var foreign := Max(0, refunded - Sum(goal, CountedFn()));
    s := ClosedRows(paid, foreign, goal);
    if foreign == 0 { s := Lowered(s, refunded); }
  }

  // ----- Late answers -----

  // The first k rows are as they are to be, and so are those from m on.
  ghost predicate Partly(s: State, goal: seq<Refund>, k: nat, m: nat) {
    && Reachable(s) && s.hasIntent && k <= m <= |goal| == |s.refunds| && AnswersLeft(s, goal, k, m)
    && forall i :: 0 <= i < |goal| ==> s.refunds[i] == if k <= i < m then Before(goal[i]) else goal[i]
  }

  lemma OthersAreClosed(s: State, goal: seq<Refund>, k: nat, m: nat)
    requires Partly(s, goal, k, m) && k < m && InTurn(goal, true)
    ensures Open(goal[k].row.status) ==> OthersClosed(s, k)
  {
  }

  lemma Ended(s: State, k: nat, r: Refund) returns (t: State)
    requires Reachable(s) && k < |s.refunds| && s.refunds[k] == Before(r) && Late(r) in s.attempts
    requires Closable(r) && r.pk == k && !Replaced(r.row.status) && (Open(r.row.status) ==> OthersClosed(s, k))
    ensures Reachable(t) && t == s.(refunds := s.refunds[k := r], attempts := t.attempts)
    ensures forall x :: x in s.attempts && x != Late(r) ==> x in t.attempts
  {
    var a :| 0 <= a < |s.attempts| && s.attempts[a] == Late(r);
    t := ReachFurther(s, End(a));
    forall x | x in s.attempts && x != Late(r) ensures x in t.attempts { StillThere(s.attempts, a, x); }
    if r.row.status.Pending? && r.row.error.NoError? {
      var ended := t;
      t := ReachFurther(ended, Start(k));
      PrefixKeeps(ended.attempts, t.attempts);
    }
  }

  lemma LateAnswer(s: State, goal: seq<Refund>, k: nat, m: nat) returns (t: State)
    requires Partly(s, goal, k, m) && k < m && AllClosable(goal[..m]) && InTurn(goal, true)
    ensures Partly(t, goal, k + 1, m) && t.paid == s.paid && t.refunded == s.refunded
  {
    assert goal[..m][k] == goal[k];
    t := s;
    if !Replaced(goal[k].row.status) {
      OthersAreClosed(s, goal, k, m);
      t := Ended(s, k, goal[k]);
      forall i | k < i < m && !Replaced(goal[i].row.status) ensures Late(goal[i]) in t.attempts {
        assert goal[..m][i].pk == i;
      }
    }
  }

  lemma StillThere(q: seq<Attempt>, a: nat, x: Attempt)
    requires a < |q| && x in q && x != q[a]
    ensures x in Without(q, a)
  {
    var i :| 0 <= i < |q| && q[i] == x;
    assert Without(q, a)[if i < a then i else i - 1] == x;
  }

  lemma {:induction false} LateAnswers(s: State, goal: seq<Refund>, k: nat, m: nat) returns (t: State)
    requires Partly(s, goal, k, m) && AllClosable(goal[..m]) && InTurn(goal, true)
    ensures Partly(t, goal, m, m) && t.paid == s.paid && t.refunded == s.refunded
    decreases m - k
  {
    if k == m {
      t := s;
    } else {
      var next := LateAnswer(s, goal, k, m);
      t := LateAnswers(next, goal, k + 1, m);
    }
  }

  // ----- Everything that can occur does -----

  predicate Goal(goal: seq<Refund>) {
    forall i :: 0 <= i < |goal| ==> goal[i].pk == i && Formed(goal[i].row) && KeyFits(goal[i])
  }

  /** What the provider accepted fits the payment, and so does the refunded total with all that is not counted yet. */
  ghost predicate Possible(paid: int, refunded: int, refunds: seq<Refund>) {
    Sum(refunds, AcceptedFn()) <= paid && refunded + Sum(refunds, UncountedFn()) <= paid
  }

  // All rows but the last one, if that is open.
  function ClosedCount(goal: seq<Refund>): (m: nat)
    ensures m <= |goal|
  {
    if goal != [] && Open(goal[|goal| - 1].row.status) then |goal| - 1 else |goal|
  }

  lemma ClosedAreClosable(goal: seq<Refund>)
    requires Goal(goal) && InTurn(goal, true)
    ensures AllClosable(goal[..ClosedCount(goal)])
  {
    forall i | 0 <= i < ClosedCount(goal) ensures goal[i].pk == i && Closable(goal[i]) {}
  }

  lemma SumsOfClosed(closed: seq<Refund>)
    requires AllClosable(closed)
    ensures 0 <= Sum(closed, CountedFn()) == Sum(closed, AcceptedFn()) && Sum(closed, UncountedFn()) == 0
  {
    SumSame(closed, AcceptedFn(), CountedFn());
    SumZero(closed, UncountedFn());
    SumPrefix(closed, |closed|, CountedFn());
    assert closed[..|closed|] == closed;
  }

  // What is accepted is counted, except for the last row if that is open.
  lemma SumsOfAll(goal: seq<Refund>)
    requires Goal(goal) && InTurn(goal, true)
    ensures var m := ClosedCount(goal);
            var rest := if m < |goal| && goal[m].key.Accepted? then goal[m].row.amount else 0;
            && 0 <= Sum(goal[..m], CountedFn()) == Sum(goal, AcceptedFn()) - rest && Sum(goal, UncountedFn()) == rest
  {
    var m := ClosedCount(goal);
    ClosedAreClosable(goal);
    SumsOfClosed(goal[..m]);
    if m == |goal| { assert goal[..m] == goal; }
  }

  lemma LastRow(s: State, goal: seq<Refund>) returns (t: State)
    requires Goal(goal) && goal != [] && Open(goal[|goal| - 1].row.status)
    requires AfterClosed(s, s.paid, s.foreign, goal[..|goal| - 1]) && 0 <= s.paid
    requires AllClosable(goal[..|goal| - 1])
    requires goal[|goal| - 1].key.Accepted? ==> ProviderTotal(s) + goal[|goal| - 1].row.amount <= s.paid
    ensures Partly(t, goal, 0, |goal| - 1) && t.paid == s.paid && t.refunded == s.refunded
  {
    var n := |goal| - 1;
    var created := Created(s, goal[n]);
    t := OpenRow(created, n, goal[n]);
    forall i | 0 <= i < n
      ensures t.refunds[i] == Before(goal[i]) && (!Replaced(goal[i].row.status) ==> Late(goal[i]) in t.attempts)
    {
      assert goal[..n][i] == goal[i] && t.refunds[i] == s.refunds[i];
    }
  }

  lemma EverythingOccurs(paid: nat, refunded: nat, goal: seq<Refund>) returns (s: State)
    requires Goal(goal) && InTurn(goal, true) && Possible(paid, refunded, goal)
    ensures Reachable(s) && s.paid == paid && s.hasIntent && s.refunded == refunded && s.refunds == goal
  {
    var m := ClosedCount(goal);
    ClosedAreClosable(goal);
    SumsOfAll(goal);
    s := TotalReached(paid, refunded, goal[..m]);
    if m < |goal| {
      s := LastRow(s, goal);
    } else {
      assert goal[..m] == goal;
    }
    s := LateAnswers(s, goal, 0, m);
    assert s.refunds == goal;
  }

  /** Exactly what occurs, of the refunded total and of any number of rows with what the provider knows of them: each
      row looks as its attempts and answers allow, one is open at most, all but the last have been closed once, and all
      of it together fits the payment. */
  lemma OccursExactly(paid: nat, refunded: nat, refunds: seq<Refund>)
    ensures (exists s: State ::
               Reachable(s) && s.paid == paid && s.hasIntent && s.refunded == refunded && s.refunds == refunds)
            <==> Goal(refunds) && InTurn(refunds, true) && Possible(paid, refunded, refunds)
  {
    if Goal(refunds) && InTurn(refunds, true) && Possible(paid, refunded, refunds) {
      var s := EverythingOccurs(paid, refunded, refunds);
    }
    forall s: State |
      Reachable(s) && s.paid == paid && s.hasIntent && s.refunded == refunded && s.refunds == refunds
      ensures Goal(refunds) && InTurn(refunds, true) && Possible(paid, refunded, refunds)
    {
      ReachableInv(s);
      forall i | 0 <= i < |refunds| ensures refunds[i].pk == i && Formed(refunds[i].row) && KeyFits(refunds[i]) {
        assert SoundRefund(s, i);
      }
    }
  }
}
